/**
 * The token-bucket rate limiter: tokens accrue at `rate` per millisecond up to `capacity`; each
 * admitted call takes one token.
 */
module TokenBucket {

  /** The limiter's mutable state: `tokens` and `lastRefillTime`. */
  datatype Bucket = Bucket(tokens: int, lastRefillTime: int)

  function Min(a: int, b: int): int { if a <= b then a else b }

  /**
   * Refilling at `now`: `refilled = (now - lastRefillTime) * rate`; only a positive amount adds
   * tokens (capped at `capacity`) and moves `lastRefillTime` to `now`; otherwise nothing changes.
   */
  function Refill(capacity: int, rate: int, b: Bucket, now: int): (r: Bucket)
    ensures r == b || (r.lastRefillTime == now && Min(capacity, b.tokens) <= r.tokens <= capacity)
    ensures r != b ==> rate != 0 && now != b.lastRefillTime
  {
    var refilled := (now - b.lastRefillTime) * rate;
    if refilled > 0 then Bucket(Min(capacity, b.tokens + refilled), now) else b
  }

  /** One `tryAcquire` at time `now`: the admission decision and the state it leaves. */
  function Acquire(capacity: int, rate: int, b: Bucket, now: int): (r: (bool, Bucket))
    ensures r.0 ==> r.1.tokens >= 0
    ensures !r.0 ==> r.1.tokens <= 0
    ensures r.1.lastRefillTime == Refill(capacity, rate, b, now).lastRefillTime
  {
    var filled := Refill(capacity, rate, b, now);
    if filled.tokens > 0 then (true, filled.(tokens := filled.tokens - 1)) else (false, filled)
  }

  /** The token bounds: at most `capacity`, and never negative unless the capacity itself is. */
  predicate TokensInBounds(capacity: int, b: Bucket) {
    b.tokens <= capacity && (0 <= b.tokens || b.tokens == capacity)
  }

  /** Calls at the given times, one after the other: their decisions and the final state. */
  function Run(capacity: int, rate: int, b: Bucket, times: seq<int>): (r: (seq<bool>, Bucket))
    ensures |r.0| == |times|
    decreases |times|
  {
    if times == [] then ([], b)
    else
      var (admitted, next) := Acquire(capacity, rate, b, times[0]);
      var (rest, last) := Run(capacity, rate, next, times[1..]);
      ([admitted] + rest, last)
  }

  /** Refilling never lowers a bucket that is within bounds, and never fills it beyond capacity. */
  lemma RefillRaises(capacity: int, rate: int, b: Bucket, now: int)
    requires TokensInBounds(capacity, b)
    ensures b.tokens <= Refill(capacity, rate, b, now).tokens <= capacity
  {
  }

  /**
   * A call is admitted iff a token is left after refilling; an admitted call takes exactly one,
   * and a rejected one leaves the refilled state as it is.
   */
  lemma AdmissionRule(capacity: int, rate: int, b: Bucket, now: int)
    ensures var (admitted, b') := Acquire(capacity, rate, b, now);
      && (admitted <==> Refill(capacity, rate, b, now).tokens > 0)
      && (admitted ==> b' == Refill(capacity, rate, b, now).(tokens := Refill(capacity, rate, b, now).tokens - 1))
      && (!admitted ==> b' == Refill(capacity, rate, b, now))
  {
  }

  lemma AcquireKeepsBounds(capacity: int, rate: int, b: Bucket, now: int)
    requires TokensInBounds(capacity, b)
    ensures TokensInBounds(capacity, Acquire(capacity, rate, b, now).1)
  {
    RefillRaises(capacity, rate, b, now);
  }

  /** A second refill at the same instant changes nothing. */
  lemma RefillSettled(capacity: int, rate: int, b: Bucket, now: int, tokens: int)
    ensures Refill(capacity, rate, Refill(capacity, rate, b, now).(tokens := tokens), now)
         == Refill(capacity, rate, b, now).(tokens := tokens)
  {
  }

  /**
   * Calls that all arrive at one instant: call number i (from 0) is admitted iff more than i
   * tokens are there after refilling at that instant.
   */
  lemma {:induction false} RunAtOneInstant(capacity: int, rate: int, b: Bucket, now: int, times: seq<int>)
    requires forall i :: 0 <= i < |times| ==> times[i] == now
    ensures forall i :: 0 <= i < |times| ==>
      (Run(capacity, rate, b, times).0[i] <==> i < Refill(capacity, rate, b, now).tokens)
    ensures var filled := Refill(capacity, rate, b, now);
      times != [] ==>
        Run(capacity, rate, b, times).1
        == filled.(tokens := if |times| <= filled.tokens then filled.tokens - |times| else Min(filled.tokens, 0))
    decreases |times|
  {
    if times != [] {
      var filled := Refill(capacity, rate, b, now);
      var (admitted, next) := Acquire(capacity, rate, b, now);
      RefillSettled(capacity, rate, b, now, next.tokens);
      assert next == filled.(tokens := next.tokens);
      assert Refill(capacity, rate, next, now) == next;
      RunAtOneInstant(capacity, rate, next, now, times[1..]);
      var r := Run(capacity, rate, b, times);
      var rest := Run(capacity, rate, next, times[1..]);
      assert r.0 == [admitted] + rest.0;
      forall i | 1 <= i < |times|
        ensures r.0[i] <==> i < filled.tokens
      {
        assert r.0[i] == rest.0[i - 1];
      }
    }
  }

  /**
   * Successive `tryAcquire` calls with capacity 10 and rate 1 per ms: from a full bucket, 10 calls at one instant
   * pass and the 11th fails; 5 ms later exactly 5 more pass and the next fails.
   */
  lemma RefillScenario(t0: int)
    ensures var first := Run(10, 1, Bucket(10, t0), seq(11, _ => t0));
      && (forall i :: 0 <= i < 11 ==> (first.0[i] <==> i < 10))
      && var second := Run(10, 1, first.1, seq(6, _ => t0 + 5));
      && (forall i :: 0 <= i < 6 ==> (second.0[i] <==> i < 5))
  {
    RunAtOneInstant(10, 1, Bucket(10, t0), t0, seq(11, _ => t0));
    var first := Run(10, 1, Bucket(10, t0), seq(11, _ => t0));
    assert first.1 == Bucket(0, t0);
    RunAtOneInstant(10, 1, first.1, t0 + 5, seq(6, _ => t0 + 5));
  }

  class TokenBucketRateLimiter {
    const capacity: int
    const rate: int
    var tokens: int
    var lastRefillTime: int

    function State(): Bucket
      reads this
    {
      Bucket(tokens, lastRefillTime)
    }

    ghost predicate Valid()
      reads this
    {
      TokensInBounds(capacity, State())
    }

    /** `now` is the clock reading the constructor takes; the bucket starts full. */
    constructor (capacity: int, rate: int, now: int)
      ensures Valid() && this.capacity == capacity && this.rate == rate
      ensures State() == Bucket(capacity, now)
    {
      this.capacity := capacity;
      this.rate := rate;
      tokens := capacity;
      lastRefillTime := now;
    }

    method TryAcquire(now: int) returns (admitted: bool)
      requires Valid()
      modifies this
      ensures Valid()
      ensures (admitted, State()) == Acquire(capacity, rate, old(State()), now)
    {
      AcquireKeepsBounds(capacity, rate, State(), now);
      var refilled := (now - lastRefillTime) * rate;
      if refilled > 0 {
        tokens := Min(capacity, tokens + refilled);
        lastRefillTime := now;
      }
      if tokens > 0 {
        tokens := tokens - 1;
        admitted := true;
      } else {
        admitted := false;
      }
    }
  }
}
