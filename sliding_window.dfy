/**
 * The sliding-window rate limiter: a queue of the times of admitted calls; before each decision
 * the times more than `windowSize` ms old are dropped from the front.
 */
module SlidingWindow {

  /**
   * The queue after eviction at `now`: the longest prefix of times strictly more than `windowSize`
   * ms old is removed, and removal stops at the first time that is not.
   */
  function Evict(q: seq<int>, now: int, windowSize: int): (r: seq<int>)
    ensures |r| <= |q| && r == q[|q| - |r|..]
    ensures forall i :: 0 <= i < |q| - |r| ==> now - q[i] > windowSize
    ensures r != [] ==> now - r[0] <= windowSize
    decreases |q|
  {
    if q != [] && now - q[0] > windowSize then Evict(q[1..], now, windowSize) else q
  }

  /** One `tryAcquire` at time `now`: the admission decision and the queue it leaves. */
  function Acquire(limit: int, windowSize: int, q: seq<int>, now: int): (r: (bool, seq<int>))
    ensures r.0 ==> 0 < |r.1| <= limit && r.1[|r.1| - 1] == now
    ensures !r.0 ==> limit <= |r.1| <= |q|
    ensures forall t :: t in r.1 ==> t in q || (r.0 && t == now)
  {
    var e := Evict(q, now, windowSize);
    if |e| < limit then (true, e + [now]) else (false, e)
  }

  /** The queue never holds more than `limit` times (and stays empty for a limit below 1). */
  predicate Bounded(limit: int, q: seq<int>) {
    q == [] || |q| <= limit
  }

  predicate Sorted(q: seq<int>) {
    forall i, j :: 0 <= i < j < |q| ==> q[i] <= q[j]
  }

  /** A call is admitted iff fewer than `limit` times survive eviction; an admission appends `now`, a rejection adds nothing. */
  lemma AdmissionRule(limit: int, windowSize: int, q: seq<int>, now: int)
    ensures var (admitted, q') := Acquire(limit, windowSize, q, now);
      && (admitted <==> |Evict(q, now, windowSize)| < limit)
      && (admitted ==> q' == Evict(q, now, windowSize) + [now])
      && (!admitted ==> q' == Evict(q, now, windowSize))
  {
  }

  lemma AcquireKeepsBound(limit: int, windowSize: int, q: seq<int>, now: int)
    requires Bounded(limit, q)
    ensures Bounded(limit, Acquire(limit, windowSize, q, now).1)
  {
  }

  /** A time exactly `windowSize` ms old is kept, because eviction needs strictly more. */
  lemma EdgeTimeKept(q: seq<int>, now: int, windowSize: int)
    requires q != [] && now - q[0] == windowSize
    ensures Evict(q, now, windowSize) == q
  {
  }

  /** In a sorted queue, every time that survives eviction lies within `windowSize` of `now`. */
  lemma EvictedQueueWithinWindow(q: seq<int>, now: int, windowSize: int)
    requires Sorted(q)
    ensures var e := Evict(q, now, windowSize);
      forall k :: 0 <= k < |e| ==> now - e[k] <= windowSize
  {
    var e := Evict(q, now, windowSize);
    SuffixSorted(q, |q| - |e|);
    assert Sorted(e);
    forall k | 0 <= k < |e|
      ensures now - e[k] <= windowSize
    {
      assert e[0] <= e[k];
    }
  }

  lemma SuffixSorted(q: seq<int>, d: nat)
    requires Sorted(q) && d <= |q|
    ensures Sorted(q[d..])
  {
    forall i, j | 0 <= i < j < |q| - d
      ensures q[d..][i] <= q[d..][j]
    {
      assert q[d..][i] == q[d + i] && q[d..][j] == q[d + j];
    }
  }

  lemma AppendSorted(e: seq<int>, x: int)
    requires Sorted(e) && (e != [] ==> e[|e| - 1] <= x)
    ensures Sorted(e + [x])
  {
    forall i, j | 0 <= i < j < |e| + 1
      ensures (e + [x])[i] <= (e + [x])[j]
    {
      if j == |e| && i < |e| {
        assert e[i] <= e[|e| - 1];
      }
    }
  }

  /** With non-decreasing call times the queue stays sorted and its last time is the latest call. */
  lemma AcquireKeepsSorted(limit: int, windowSize: int, q: seq<int>, now: int)
    requires Sorted(q) && (q != [] ==> q[|q| - 1] <= now)
    ensures Sorted(Acquire(limit, windowSize, q, now).1)
    ensures Acquire(limit, windowSize, q, now).1 != [] ==>
      Acquire(limit, windowSize, q, now).1[|Acquire(limit, windowSize, q, now).1| - 1] <= now
  {
    var e := Evict(q, now, windowSize);
    var d := |q| - |e|;
    assert e == q[d..];
    SuffixSorted(q, d);
    assert Sorted(e);
    if e != [] {
      assert e[|e| - 1] == q[|q| - 1];
    }
    AppendSorted(e, now);
    if |e| < limit {
      assert Acquire(limit, windowSize, q, now).1 == e + [now];
    } else {
      assert Acquire(limit, windowSize, q, now).1 == e;
    }
  }

  /** The number of times in `q` that are at most `windowSize` ms old at `now`. */
  function CountWithin(q: seq<int>, now: int, windowSize: int): nat
    decreases |q|
  {
    if q == [] then 0
    else (if now - q[0] <= windowSize then 1 else 0) + CountWithin(q[1..], now, windowSize)
  }

  /**
   * For a sorted queue the surviving times are exactly those within the trailing window, so a
   * call is admitted iff fewer than `limit` admitted calls lie in the last `windowSize` ms.
   */
  lemma {:induction false} EvictCountsWindow(q: seq<int>, now: int, windowSize: int)
    requires Sorted(q)
    ensures |Evict(q, now, windowSize)| == CountWithin(q, now, windowSize)
    decreases |q|
  {
    if q != [] {
      if now - q[0] > windowSize {
        EvictCountsWindow(q[1..], now, windowSize);
      } else {
        AllWithin(q, now, windowSize);
      }
    }
  }

  lemma {:induction false} AllWithin(q: seq<int>, now: int, windowSize: int)
    requires Sorted(q) && q != [] && now - q[0] <= windowSize
    ensures CountWithin(q, now, windowSize) == |q|
    decreases |q|
  {
    if |q| > 1 {
      AllWithin(q[1..], now, windowSize);
    }
  }

  class SlidingWindowRateLimiter {
    const limit: int
    const windowSize: int
    var timestamps: seq<int>

    ghost predicate Valid()
      reads this
    {
      Bounded(limit, timestamps)
    }

    constructor (limit: int, windowSize: int)
      ensures Valid() && this.limit == limit && this.windowSize == windowSize
      ensures timestamps == []
    {
      this.limit := limit;
      this.windowSize := windowSize;
      timestamps := [];
    }

    method TryAcquire(now: int) returns (admitted: bool)
      requires Valid()
      modifies this
      ensures Valid()
      ensures (admitted, timestamps) == Acquire(limit, windowSize, old(timestamps), now)
    {
      while timestamps != [] && now - timestamps[0] > windowSize
        invariant Evict(timestamps, now, windowSize) == Evict(old(timestamps), now, windowSize)
        invariant |timestamps| <= |old(timestamps)|
        decreases |timestamps|
      {
        timestamps := timestamps[1..];
      }
      if |timestamps| < limit {
        timestamps := timestamps + [now];
        admitted := true;
      } else {
        admitted := false;
      }
    }
  }
}
