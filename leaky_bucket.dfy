/**
 * The leaky-bucket rate limiter: each admitted call adds one unit of water; water drains at
 * `rate` units per millisecond; a call is admitted while the bucket is below `capacity`.
 */
module LeakyBucket {

  /** The limiter's mutable state: `waterLevel` and `lastLeakTime`. */
  datatype Bucket = Bucket(waterLevel: int, lastLeakTime: int)

  function Max(a: int, b: int): int { if a >= b then a else b }

  /**
   * Draining at `now`: `leaked = (now - lastLeakTime) * rate`; only a positive amount lowers the
   * level (never below 0) and moves `lastLeakTime` to `now`; otherwise nothing changes.
   */
  function Leak(rate: int, b: Bucket, now: int): (r: Bucket)
    ensures r == b || (r.lastLeakTime == now && 0 <= r.waterLevel <= Max(0, b.waterLevel))
    ensures r != b ==> rate != 0 && now != b.lastLeakTime
  {
    var leaked := (now - b.lastLeakTime) * rate;
    if leaked > 0 then Bucket(Max(0, b.waterLevel - leaked), now) else b
  }

  /** One `tryAcquire` at time `now`: the admission decision and the state it leaves. */
  function Acquire(capacity: int, rate: int, b: Bucket, now: int): (r: (bool, Bucket))
    ensures r.0 ==> r.1.waterLevel <= capacity
    ensures !r.0 ==> r.1.waterLevel >= capacity
    ensures r.1.lastLeakTime == Leak(rate, b, now).lastLeakTime
  {
    var drained := Leak(rate, b, now);
    if drained.waterLevel < capacity then (true, drained.(waterLevel := drained.waterLevel + 1))
    else (false, drained)
  }

  /** The level bounds: never negative, and never above the capacity (it stays 0 when the capacity is below 1). */
  predicate LevelInBounds(capacity: int, b: Bucket) {
    0 <= b.waterLevel && (b.waterLevel <= capacity || b.waterLevel == 0)
  }

  /** Calls at the given times, one after the other: their decisions and the final state. */
  function Run(capacity: int, rate: int, b: Bucket, times: seq<int>): (r: (seq<bool>, Bucket))
    ensures |r.0| == |times|
    decreases |times|
  {
    if times == [] then ([], b)
    else
      var (admitted, next) := Acquire(capacity, rate, b, times[0]);
      var (rest, last) := Run(capacity, rate, next, times[1..]);
      ([admitted] + rest, last)
  }

  /** Draining never raises the level and never takes it below 0. */
  lemma LeakLowers(rate: int, b: Bucket, now: int)
    requires b.waterLevel >= 0
    ensures 0 <= Leak(rate, b, now).waterLevel <= b.waterLevel
  {
  }

  /**
   * A call is admitted iff the drained level is below capacity; an admitted call raises the
   * drained level by exactly 1 and a rejected one leaves the drained state as it is.
   */
  lemma AdmissionRule(capacity: int, rate: int, b: Bucket, now: int)
    ensures var (admitted, b') := Acquire(capacity, rate, b, now);
      && (admitted <==> Leak(rate, b, now).waterLevel < capacity)
      && (admitted ==> b' == Leak(rate, b, now).(waterLevel := Leak(rate, b, now).waterLevel + 1))
      && (!admitted ==> b' == Leak(rate, b, now))
  {
  }

  lemma AcquireKeepsBounds(capacity: int, rate: int, b: Bucket, now: int)
    requires LevelInBounds(capacity, b)
    ensures LevelInBounds(capacity, Acquire(capacity, rate, b, now).1)
  {
    LeakLowers(rate, b, now);
  }

  /** A second drain at the same instant changes nothing. */
  lemma LeakSettled(rate: int, b: Bucket, now: int, level: int)
    ensures Leak(rate, Leak(rate, b, now).(waterLevel := level), now) == Leak(rate, b, now).(waterLevel := level)
  {
  }

  /**
   * Calls that all arrive at one instant: call number i (from 0) is admitted iff the level
   * drained at that instant plus the i earlier admissions stays below capacity.
   */
  lemma {:induction false} RunAtOneInstant(capacity: int, rate: int, b: Bucket, now: int, times: seq<int>)
    requires forall i :: 0 <= i < |times| ==> times[i] == now
    ensures forall i :: 0 <= i < |times| ==>
      (Run(capacity, rate, b, times).0[i] <==> Leak(rate, b, now).waterLevel + i < capacity)
    decreases |times|
  {
    if times != [] {
      var drained := Leak(rate, b, now);
      var (admitted, next) := Acquire(capacity, rate, b, now);
      LeakSettled(rate, b, now, next.waterLevel);
      assert next == drained.(waterLevel := next.waterLevel);
      assert Leak(rate, next, now) == next;
      RunAtOneInstant(capacity, rate, next, now, times[1..]);
      var r := Run(capacity, rate, b, times);
      var rest := Run(capacity, rate, next, times[1..]);
      assert r.0 == [admitted] + rest.0;
      forall i | 1 <= i < |times|
        ensures r.0[i] <==> drained.waterLevel + i < capacity
      {
        assert r.0[i] == rest.0[i - 1];
      }
    }
  }

  /** From an empty bucket with no time elapsing, exactly `capacity` calls pass and every later one fails. */
  lemma FromEmpty(capacity: int, rate: int, now: int, n: nat)
    ensures var r := Run(capacity, rate, Bucket(0, now), seq(n, _ => now));
      forall i :: 0 <= i < n ==> (r.0[i] <==> i < capacity)
  {
    RunAtOneInstant(capacity, rate, Bucket(0, now), now, seq(n, _ => now));
  }

  class LeakyBucketRateLimiter {
    const capacity: int
    const rate: int
    var waterLevel: int
    var lastLeakTime: int

    function State(): Bucket
      reads this
    {
      Bucket(waterLevel, lastLeakTime)
    }

    ghost predicate Valid()
      reads this
    {
      LevelInBounds(capacity, State())
    }

    /** `now` is the clock reading the constructor takes; the bucket starts empty. */
    constructor (capacity: int, rate: int, now: int)
      ensures Valid() && this.capacity == capacity && this.rate == rate
      ensures State() == Bucket(0, now)
    {
      this.capacity := capacity;
      this.rate := rate;
      waterLevel := 0;
      lastLeakTime := now;
    }

    method TryAcquire(now: int) returns (admitted: bool)
      requires Valid()
      modifies this
      ensures Valid()
      ensures (admitted, State()) == Acquire(capacity, rate, old(State()), now)
    {
      AcquireKeepsBounds(capacity, rate, State(), now);
      var leaked := (now - lastLeakTime) * rate;
      if leaked > 0 {
        waterLevel := Max(0, waterLevel - leaked);
        lastLeakTime := now;
      }
      if waterLevel < capacity {
        waterLevel := waterLevel + 1;
        admitted := true;
      } else {
        admitted := false;
      }
    }
  }
}
