/** Whole reads of a ring (kernel/libk/ringbuff.c), and a write followed by reads of any lengths. */
module RingReads {
  import opened Machine
  import opened RingBuff

  /** The read loop: the ring it leaves and the bytes it delivers. */
  function Read(r: Ring, n: nat): (out: (Ring, seq<Byte>))
    requires r.Valid() && r.tail < |r.buff|
    ensures out.0.Valid() && |out.0.buff| == |r.buff| && out.0.tail < |r.buff|
    decreases n
  {
    if n == 0 || r.Empty() then
      (r, [])
    else
      var rest := Read(r.ReadOne(), n - 1);
      (rest.0, [r.buff[r.tail]] + rest.1)
  }

  /** The read loop delivers the oldest bytes and leaves the rest. */
  lemma {:induction false} ReadTakes(r: Ring, n: nat)
    requires r.Valid() && r.tail < |r.buff|
    ensures |Read(r, n).1| == Min(n, |r.Contents()|)
    ensures Read(r, n).1 + Read(r, n).0.Contents() == r.Contents()
    decreases n
  {
    hide Ring.Contents;
    if n > 0 && !r.Empty() {
      var one, b := r.ReadOne(), r.buff[r.tail];
      ReadTakes(one, n - 1);
      assert [b] + (Read(one, n - 1).1 + Read(one, n - 1).0.Contents()) == [b] + one.Contents();
      assert Read(r, n).1 + Read(r, n).0.Contents() == [b] + (Read(one, n - 1).1 + Read(one, n - 1).0.Contents());
    }
  }

  /** What reads of the given lengths deliver, one after the other. */
  function Reads(r: Ring, lens: seq<nat>): seq<Byte>
    requires r.Valid() && r.tail < |r.buff|
    decreases |lens|
  {
    if lens == [] then [] else Read(r, lens[0]).1 + Reads(Read(r, lens[0]).0, lens[1..])
  }

  lemma {:induction false} ReadsDeliver(r: Ring, lens: seq<nat>)
    requires r.Valid() && r.tail < |r.buff|
    ensures Reads(r, lens) == r.Contents()[..Min(Sum(lens), |r.Contents()|)]
    decreases |lens|
  {
    hide Ring.Contents, Read;
    if lens != [] {
      ReadTakes(r, lens[0]);
      ReadsDeliver(Read(r, lens[0]).0, lens[1..]);
    }
  }

  /** Bytes written to an empty ring come back whole from the reads that follow, however these are cut. */
  lemma WriteThenRead(r: Ring, data: seq<Byte>, lens: seq<nat>)
    requires r.Valid() && r.tail < |r.buff| && r.Contents() == [] && |data| < |r.buff|
    ensures r.Write(data).1 == |data|
    ensures Reads(r.Write(data).0, lens) == data[..Min(Sum(lens), |data|)]
  {
    hide Ring.Contents, Ring.Write;
    WriteAppends(r, data);
    ReadsDeliver(r.Write(data).0, lens);
    assert data[..|data|] == data && r.Contents() + data == data;
  }
}
