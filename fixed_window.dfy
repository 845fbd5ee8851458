/**
 * The fixed-window rate limiter: a counter of calls in the current window, restarted when a
 * call arrives more than `windowSize` ms after the window began.
 */
module FixedWindow {

  /** The limiter's mutable state: `counter` and `windowStart`. */
  datatype Window = Window(counter: int, windowStart: int)

  /** True when a call at `now` restarts the window: strictly more than `windowSize` ms have elapsed. */
  predicate Expired(windowSize: int, w: Window, now: int) {
    now - w.windowStart > windowSize
  }

  /** One `tryAcquire` at time `now`: the admission decision and the state it leaves. */
  function Acquire(limit: int, windowSize: int, w: Window, now: int): (r: (bool, Window))
    ensures r.0 <==> r.1.counter <= limit
    ensures r.1.windowStart == now || r.1.windowStart == w.windowStart
    ensures windowSize >= 0 ==> !Expired(windowSize, r.1, now)
  {
    var current := if Expired(windowSize, w, now) then Window(0, now) else w;
    var counter := current.counter + 1;
    (counter <= limit, Window(counter, current.windowStart))
  }

  /** Calls at the given times, one after the other: their decisions and the final state. */
  function Run(limit: int, windowSize: int, w: Window, times: seq<int>): (r: (seq<bool>, Window))
    ensures |r.0| == |times|
    decreases |times|
  {
    if times == [] then ([], w)
    else
      var (admitted, next) := Acquire(limit, windowSize, w, times[0]);
      var (rest, last) := Run(limit, windowSize, next, times[1..]);
      ([admitted] + rest, last)
  }

  /** A call that restarts the window leaves counter 1, starts the window at `now`, and is admitted iff limit >= 1. */
  lemma RestartingCall(limit: int, windowSize: int, w: Window, now: int)
    requires Expired(windowSize, w, now)
    ensures Acquire(limit, windowSize, w, now).1 == Window(1, now)
    ensures Acquire(limit, windowSize, w, now).0 <==> limit >= 1
  {
  }

  /**
   * A call that does not restart the window counts itself, admitted or not, and keeps the window's
   * start; this includes a call exactly `windowSize` ms after the start.
   */
  lemma CallWithinWindow(limit: int, windowSize: int, w: Window, now: int)
    requires now - w.windowStart <= windowSize
    ensures Acquire(limit, windowSize, w, now).1 == Window(w.counter + 1, w.windowStart)
    ensures Acquire(limit, windowSize, w, now).0 <==> w.counter + 1 <= limit
  {
  }

  /**
   * Within one window, call number i (from 0) is admitted iff the counter it finds, plus itself,
   * is within the limit: exactly the first `limit - counter` calls pass and every later one fails.
   */
  lemma {:induction false} RunWithinWindow(limit: int, windowSize: int, w: Window, times: seq<int>)
    requires forall i :: 0 <= i < |times| ==> times[i] - w.windowStart <= windowSize
    ensures Run(limit, windowSize, w, times).1 == Window(w.counter + |times|, w.windowStart)
    ensures forall i :: 0 <= i < |times| ==>
      (Run(limit, windowSize, w, times).0[i] <==> w.counter + i + 1 <= limit)
    decreases |times|
  {
    if times != [] {
      var next := Acquire(limit, windowSize, w, times[0]).1;
      assert next == Window(w.counter + 1, w.windowStart);
      RunWithinWindow(limit, windowSize, next, times[1..]);
      var r := Run(limit, windowSize, w, times);
      var rest := Run(limit, windowSize, next, times[1..]);
      assert r.0 == [Acquire(limit, windowSize, w, times[0]).0] + rest.0;
      forall i | 1 <= i < |times|
        ensures r.0[i] <==> w.counter + i + 1 <= limit
      {
        assert r.0[i] == rest.0[i - 1];
      }
    }
  }

  /**
   * Successive `tryAcquire` calls with a limit of 10 per 1000 ms: of 20 calls at the window's start exactly the
   * first 10 pass; a call exactly 1000 ms later is still in the window and fails, and one
   * 1001 ms later restarts the window and passes.
   */
  lemma BurstScenario(t0: int)
    ensures var r := Run(10, 1000, Window(0, t0), seq(20, _ => t0));
      && (forall i :: 0 <= i < 20 ==> (r.0[i] <==> i < 10))
      && !Acquire(10, 1000, r.1, t0 + 1000).0
      && Acquire(10, 1000, r.1, t0 + 1001).0
  {
    RunWithinWindow(10, 1000, Window(0, t0), seq(20, _ => t0));
  }

  class FixedWindowRateLimiter {
    const limit: int
    const windowSize: int
    var counter: int
    var windowStart: int

    function State(): Window
      reads this
    {
      Window(counter, windowStart)
    }

    /** `now` is the clock reading the constructor takes. */
    constructor (limit: int, windowSize: int, now: int)
      ensures this.limit == limit && this.windowSize == windowSize
      ensures State() == Window(0, now)
    {
      this.limit := limit;
      this.windowSize := windowSize;
      counter := 0;
      windowStart := now;
    }

    method TryAcquire(now: int) returns (admitted: bool)
      modifies this
      ensures (admitted, State()) == Acquire(limit, windowSize, old(State()), now)
    {
      if now - windowStart > windowSize {
        counter := 0;
        windowStart := now;
      }
      counter := counter + 1;
      admitted := counter <= limit;
    }
  }
}
