/** The byte ring of kernel/libk/ringbuff.c, which always keeps one index free. */
module RingBuff {
  import opened Machine

  /**
   * The fields of `struct ringbuff`; `size` is `|buff|`. A reader that has advanced `tail` but not
   * yet wrapped it leaves `tail == size` visible for a moment, so that value is part of the type's
   * domain and means the same as `tail == 0`.
   */
  datatype Ring = Ring(head: nat, tail: nat, buff: seq<Byte>) {
    ghost predicate Valid() {
      && 1 <= |buff| < WORD
      && head < |buff|
      && tail <= |buff|
    }

    /** The bytes waiting to be read, oldest first. */
    ghost function Contents(): (s: seq<Byte>)
      requires Valid()
      ensures |s| < |buff|
    {
      var t := if tail == |buff| then 0 else tail;
      if t <= head then buff[t..head] else buff[t..] + buff[..head]
    }

    /** `ringbuff_length`, with the additions and subtractions of one machine word. */
    function Length(): (n: nat)
      requires Valid()
      ensures n == |Contents()|
    {
      if head >= tail then U16(head - tail) else U16(U16(head + |buff|) - tail)
    }

    /** The write loop's stop test, again in machine words. */
    predicate Full()
      requires Valid()
      ensures Full() <==> |Contents()| == |buff| - 1
    {
      head == U16(tail - 1) || (tail == 0 && head == U16(|buff| - 1))
    }

    /** One iteration of the write loop. */
    function WriteOne(b: Byte): (r: Ring)
      requires Valid() && !Full()
      ensures r.Valid() && |r.buff| == |buff| && r.tail == tail
      ensures r.Contents() == Contents() + [b]
    {
      Ring(if head + 1 == |buff| then 0 else head + 1, tail, buff[head := b])
    }

    /** The read loop's stop test. Only meaningful once `tail` is wrapped. */
    predicate Empty()
      requires Valid()
      ensures tail < |buff| ==> (Empty() <==> Contents() == [])
    {
      tail == head
    }

    /** The read loop's `++tail`, before the wrap. */
    function Bump(): (r: Ring)
      requires Valid() && tail < |buff| && !Empty()
      ensures r.Valid() && |r.buff| == |buff|
      ensures Contents() == [buff[tail]] + r.Contents()
    {
      this.(tail := tail + 1)
    }

    /** The read loop's wrap of `tail`. */
    function Wrap(): (r: Ring)
      requires Valid()
      ensures r.Valid() && |r.buff| == |buff| && r.tail < |buff|
      ensures r.Contents() == Contents()
    {
      if tail == |buff| then this.(tail := 0) else this
    }

    /** One whole iteration of the read loop; it delivers `buff[tail]`. */
    function ReadOne(): (r: Ring)
      requires Valid() && tail < |buff| && !Empty()
      ensures r.Valid() && |r.buff| == |buff| && r.tail < |buff|
      ensures Contents() == [buff[tail]] + r.Contents()
    {
      Bump().Wrap()
    }

    /** The write loop: the ring it leaves and the number of bytes it took. */
    function Write(data: seq<Byte>): (r: (Ring, nat))
      requires Valid()
      ensures r.0.Valid() && |r.0.buff| == |buff| && r.0.tail == tail && r.1 <= |data|
      decreases |data|
    {
      if data == [] || Full() then
        (this, 0)
      else
        var rest := WriteOne(data[0]).Write(data[1..]);
        (rest.0, rest.1 + 1)
    }
  }

  /** The write loop appends the longest prefix of `data` that fits. */
  lemma {:induction false} WriteAppends(r: Ring, data: seq<Byte>)
    requires r.Valid()
    ensures r.Write(data).1 == Min(|data|, |r.buff| - 1 - |r.Contents()|)
    ensures r.Write(data).0.Contents() == r.Contents() + data[..r.Write(data).1]
    decreases |data|
  {
    hide Ring.Contents;
    if data != [] && !r.Full() {
      var one := r.WriteOne(data[0]);
      WriteAppends(one, data[1..]);
      var n := one.Write(data[1..]).1;
      assert data[..n + 1] == [data[0]] + data[1..][..n];
      assert (r.Contents() + [data[0]]) + data[1..][..n] == r.Contents() + data[..n + 1];
    }
  }

  /** `struct ringbuff` as the kernel updates it in place. */
  class RingBuffer {
    var head: nat
    var tail: nat
    var size: nat
    var buff: array<Byte>

    ghost function View(): Ring
      reads this, buff
    {
      Ring(head, tail, buff[..])
    }

    ghost predicate Valid()
      reads this, buff
    {
      size == buff.Length && View().Valid() && tail < size
    }

    /** `ringbuff_init`; the size is one machine word, so the largest request leaves no ring at all. */
    constructor (capacity: Word)
      ensures fresh(buff) && size == buff.Length == U16(capacity + 1)
      ensures Valid() <==> capacity + 1 < WORD
      ensures Valid() ==> size == capacity + 1 && View().Contents() == []
    {
      var n := U16(capacity as int + 1);
      head := 0;
      tail := 0;
      size := n;
      buff := new Byte[n](_ => 0);
    }

    method Length() returns (n: nat)
      requires Valid()
      ensures n == |View().Contents()|
    {
      n := if head >= tail then U16(head - tail) else U16(U16(head + size) - tail);
      assert n == View().Length();
    }

    /** `ringbuff_write` takes the longest prefix of `data` that fits and nothing else changes. */
    method Write(data: seq<Byte>) returns (wlen: nat)
      requires Valid()
      modifies this`head, buff
      ensures Valid()
      ensures wlen == Min(|data|, size - 1 - |old(View().Contents())|)
      ensures View().Contents() == old(View().Contents()) + data[..wlen]
    {
      hide Ring.Contents;
      wlen := 0;
      while wlen < |data|
        invariant wlen <= |data| && Valid()
        invariant View().Contents() == old(View().Contents()) + data[..wlen]
      {
        if head == U16(tail - 1) || (tail == 0 && head == U16(size - 1)) {
          assert View().Full();
          break;
        }
        ghost var before := View();
        assert !before.Full();
        buff[head] := data[wlen];
        head := if head + 1 == size then 0 else head + 1;
        assert View() == before.WriteOne(data[wlen]);
        wlen := wlen + 1;
      }
    }

    /** `ringbuff_read` takes the longest prefix of the contents that was asked for. */
    method Read(n: nat) returns (out: seq<Byte>)
      requires Valid()
      modifies this`tail
      ensures Valid()
      ensures |out| == Min(n, |old(View().Contents())|)
      ensures out + View().Contents() == old(View().Contents())
    {
      hide Ring.Contents;
      out := [];
      while |out| < n
        invariant |out| <= n && Valid()
        invariant out + View().Contents() == old(View().Contents())
      {
        if tail == head {
          assert View().Empty();
          break;
        }
        ghost var before := View();
        assert !before.Empty();
        ghost var taken := out;
        out := out + [buff[tail]];
        tail := tail + 1;
        if tail == size {
          tail := 0;
        }
        assert View() == before.ReadOne();
        assert taken + before.Contents() == out + View().Contents();
      }
    }
  }

  // ---- The reader preempted by a writing interrupt handler ----

  /** Where the reader is inside `ringbuff_read`; interrupts can fall between any two of these. */
  datatype ReaderPc = Outside | Check | Copy | Advance | WrapTail

  /**
   * `out` is every byte the reader has stored so far, `accepted` every byte a writer has put in,
   * and `left` the number of iterations the current read call may still do.
   */
  datatype Reading = Reading(ring: Ring, pc: ReaderPc, left: nat, out: seq<Byte>, accepted: seq<Byte>)

  ghost predicate Initial(s: Reading) {
    && s.ring.Valid() && s.ring.head == 0 && s.ring.tail == 0
    && s.pc == Outside && s.out == [] && s.accepted == []
  }

  /** The next micro-step of the reader; a read call that starts now asks for `n` bytes. */
  ghost function ReaderStep(s: Reading, n: nat): Reading
    requires s.ring.Valid()
  {
    match s.pc
    case Outside => s.(pc := Check, left := n)
    case Check => if s.left == 0 || s.ring.Empty() then s.(pc := Outside) else s.(pc := Copy)
    case Copy =>
      if s.ring.tail < |s.ring.buff|
      then s.(pc := Advance, out := s.out + [s.ring.buff[s.ring.tail]])
      else s
    case Advance => s.(pc := WrapTail, ring := s.ring.(tail := s.ring.tail + 1))
    case WrapTail => s.(pc := Check, left := if s.left > 0 then s.left - 1 else 0, ring := s.ring.Wrap())
  }

  /** An interrupt handler runs `ringbuff_write` to completion. */
  ghost function WriterStep(s: Reading, data: seq<Byte>): Reading
    requires s.ring.Valid()
  {
    var w := s.ring.Write(data);
    s.(ring := w.0, accepted := s.accepted + data[..w.1])
  }

  /** The bytes that have left the ring: a byte being copied still counts as inside. */
  ghost function Delivered(s: Reading): seq<Byte> {
    if s.pc == Advance && s.out != [] then s.out[..|s.out| - 1] else s.out
  }

  ghost predicate Intact(s: Reading) {
    && s.ring.Valid()
    && (s.pc != WrapTail ==> s.ring.tail < |s.ring.buff|)
    && (s.pc in {Copy, Advance} ==> !s.ring.Empty())
    && (s.pc in {Copy, Advance, WrapTail} ==> s.left > 0)
    && (s.pc == Advance ==> s.out != [] && s.out[|s.out| - 1] == s.ring.buff[s.ring.tail])
    && Delivered(s) + s.ring.Contents() == s.accepted
  }

  lemma OldestByte(r: Ring)
    requires r.Valid() && r.tail < |r.buff| && r.Contents() != []
    ensures !r.Empty() && r.buff[r.tail] == r.Contents()[0]
  {}

  lemma ReaderStepKeepsIntact(s: Reading, n: nat)
    requires Intact(s)
    ensures Intact(ReaderStep(s, n))
  {
    hide Ring.Contents, Ring.Write;
    var t := ReaderStep(s, n);
    match s.pc
    case Outside =>
    case Check =>
    case Copy =>
      assert Delivered(t) == s.out;
    case Advance =>
      assert t.ring == s.ring.Bump();
      assert s.out == Delivered(s) + [s.ring.buff[s.ring.tail]];
    case WrapTail =>
      assert t.ring == s.ring.Wrap();
  }

  lemma WriterStepKeepsIntact(s: Reading, data: seq<Byte>)
    requires Intact(s)
    ensures Intact(WriterStep(s, data))
  {
    hide Ring.Contents, Ring.Write;
    var t := WriterStep(s, data);
    var w := s.ring.Write(data);
    WriteAppends(s.ring, data);
    assert Delivered(t) == Delivered(s);
    assert Delivered(s) + (s.ring.Contents() + data[..w.1]) == (Delivered(s) + s.ring.Contents()) + data[..w.1];
    if s.pc in {Copy, Advance} {
      OldestByte(s.ring);
      assert t.ring.Contents()[0] == s.ring.Contents()[0];
      OldestByte(t.ring);
    }
  }

  /** What happens next: the reader takes a micro-step, or a writing interrupt comes in. */
  datatype Event = Reader(n: nat) | Interrupt(data: seq<Byte>)

  ghost function Step(s: Reading, e: Event): Reading
    requires s.ring.Valid()
  {
    match e
    case Reader(n) => ReaderStep(s, n)
    case Interrupt(data) => WriterStep(s, data)
  }

  lemma StepKeepsIntact(s: Reading, e: Event)
    requires Intact(s)
    ensures Intact(Step(s, e)) && |Step(s, e).ring.buff| == |s.ring.buff|
  {
    hide Intact;
    match e
    case Reader(n) => ReaderStepKeepsIntact(s, n);
    case Interrupt(data) => WriterStepKeepsIntact(s, data);
  }

  /** One interleaving: the state before and after every event. */
  ghost predicate Run(run: seq<Reading>, events: seq<Event>) {
    && |run| == |events| + 1 && Initial(run[0])
    && forall i :: 0 <= i < |events| && run[i].ring.Valid() ==> run[i + 1] == Step(run[i], events[i])
  }

  lemma {:induction false} RunKeepsIntact(run: seq<Reading>, events: seq<Event>, i: nat)
    requires Run(run, events) && i < |run|
    ensures Intact(run[i]) && |run[i].ring.buff| == |run[0].ring.buff|
  {
    if i > 0 {
      hide Step;
      RunKeepsIntact(run, events, i - 1);
      StepKeepsIntact(run[i - 1], events[i - 1]);
    }
  }

  /** Nothing is lost, duplicated or reordered, whatever the reader was doing when interrupted. */
  lemma NoByteLost(run: seq<Reading>, events: seq<Event>, i: nat)
    requires Run(run, events) && i < |run|
    ensures run[i].ring.Valid()
    ensures Delivered(run[i]) + run[i].ring.Contents() == run[i].accepted
    ensures run[i].ring.Length() == |run[i].accepted| - |Delivered(run[i])|
  {
    RunKeepsIntact(run, events, i);
  }

  /** At every moment a writer can place exactly `size - 1` minus the unread bytes. */
  lemma CapacityIsExact(run: seq<Reading>, events: seq<Event>, i: nat, data: seq<Byte>)
    requires Run(run, events) && i < |run|
    ensures run[i].ring.Valid() && |run[i].ring.buff| == |run[0].ring.buff|
    ensures run[i].ring.Write(data).1
            == Min(|data|, |run[0].ring.buff| - 1 - (|run[i].accepted| - |Delivered(run[i])|))
  {
    hide Ring.Contents, Ring.Write, Run, Delivered;
    RunKeepsIntact(run, events, i);
    NoByteLost(run, events, i);
    WriteAppends(run[i].ring, data);
  }
}
