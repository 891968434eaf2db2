/** Weighted head counts over a pool of threads, the bookkeeping of every protocol invariant. */
module Counting {

  /** The sum of the weights of all threads. */
  function Total<T>(ts: seq<T>, w: T -> int): int {
    if ts == [] then 0 else w(ts[0]) + Total(ts[1..], w)
  }

  /** One thread moving changes the total by the difference of its own weights. */
  lemma {:induction false} TotalUpdate<T>(ts: seq<T>, i: nat, t: T, w: T -> int)
    requires i < |ts|
    ensures Total(ts[i := t], w) == Total(ts, w) - w(ts[i]) + w(t)
  {
    if i == 0 {
      assert ts[i := t][1..] == ts[1..];
    } else {
      assert ts[i := t][1..] == ts[1..][i - 1 := t];
      TotalUpdate(ts[1..], i - 1, t, w);
    }
  }

  /** With non-negative weights a total dominates each of its members. */
  lemma {:induction false} TotalBounds<T>(ts: seq<T>, i: nat, w: T -> int)
    requires i < |ts|
    requires forall t <- ts :: w(t) >= 0
    ensures 0 <= w(ts[i]) <= Total(ts, w)
  {
    if i == 0 {
      TotalNonNegative(ts[1..], w);
    } else {
      TotalBounds(ts[1..], i - 1, w);
    }
  }

  lemma {:induction false} TotalNonNegative<T>(ts: seq<T>, w: T -> int)
    requires forall t <- ts :: w(t) >= 0
    ensures 0 <= Total(ts, w)
  {
    if ts != [] {
      TotalNonNegative(ts[1..], w);
    }
  }

  /** Two distinct threads contribute both of their weights. */
  lemma {:induction false} TotalPair<T>(ts: seq<T>, i: nat, j: nat, w: T -> int)
    requires i < j < |ts|
    requires forall t <- ts :: w(t) >= 0
    ensures w(ts[i]) + w(ts[j]) <= Total(ts, w)
  {
    if i == 0 {
      TotalBounds(ts[1..], j - 1, w);
    } else {
      TotalPair(ts[1..], i - 1, j - 1, w);
    }
  }

  /** A total is zero when no thread carries weight. */
  lemma {:induction false} TotalZero<T>(ts: seq<T>, w: T -> int)
    requires forall t <- ts :: w(t) == 0
    ensures Total(ts, w) == 0
  {
    if ts != [] {
      TotalZero(ts[1..], w);
    }
  }

  /** A positive total of non-negative weights has a thread behind it. */
  lemma {:induction false} TotalWitness<T>(ts: seq<T>, w: T -> int) returns (i: nat)
    requires Total(ts, w) > 0
    ensures i < |ts| && w(ts[i]) > 0
  {
    if w(ts[0]) > 0 {
      i := 0;
    } else {
      var j := TotalWitness(ts[1..], w);
      i := j + 1;
    }
  }

  /** What all threads hold together. */
  function Gather<T, R>(ts: seq<T>, w: T -> multiset<R>): multiset<R> {
    if ts == [] then multiset{} else w(ts[0]) + Gather(ts[1..], w)
  }

  /** One thread moving changes that by what it lets go and what it takes. */
  lemma {:induction false} GatherUpdate<T, R>(ts: seq<T>, i: nat, t: T, w: T -> multiset<R>)
    requires i < |ts|
    ensures Gather(ts[i := t], w) + w(ts[i]) == Gather(ts, w) + w(t)
  {
    if i == 0 {
      assert ts[i := t][1..] == ts[1..];
    } else {
      assert ts[i := t][1..] == ts[1..][i - 1 := t];
      GatherUpdate(ts[1..], i - 1, t, w);
      var a, b := Gather(ts[1..][i - 1 := t], w), Gather(ts[1..], w);
      assert (w(ts[0]) + a) + w(ts[i]) == w(ts[0]) + (a + w(ts[1..][i - 1]));
      assert (w(ts[0]) + b) + w(t) == w(ts[0]) + (b + w(t));
    }
  }

  lemma {:induction false} GatherNone<T, R>(ts: seq<T>, w: T -> multiset<R>)
    requires forall t <- ts :: w(t) == multiset{}
    ensures Gather(ts, w) == multiset{}
  {
    if ts != [] {
      assert ts[0] in ts && forall t <- ts[1..] :: t in ts;
      GatherNone(ts[1..], w);
    }
  }

  /** A step that moves something from the threads `g` to a history `h`, or brings in `x`. */
  lemma Balance<R>(h: multiset<R>, h': multiset<R>, g: multiset<R>, g': multiset<R>,
                   lost: multiset<R>, got: multiset<R>, x: multiset<R>)
    requires g' + lost == g + got && h' + got == h + lost + x
    ensures h' + g' == h + g + x
  {
    forall r: R | r in h' + g' || r in h + g + x
      ensures (h' + g')[r] == (h + g + x)[r]
    {
      assert (g' + lost)[r] == (g + got)[r] && (h' + got)[r] == (h + lost + x)[r];
    }
  }
}
