/**
 * The lease lock with a watchdog: a successful `tryLock` schedules a task that, every
 * 10000 ms, resets the lease to 30000 ms if the key still holds the object's current
 * `requestId`; `unlock` shuts the watchdog down for good and then releases by compare-and-delete.
 * One firing of the scheduled task is the explicit method `WatchdogTick`.
 */
module DistributedLockWithRenewal {
  import opened Wrappers
  import opened KeyValueStore

  const LockKey: string := "distributed_lock"
  const LockExpireTime: int := 30000
  const WatchdogInterval: int := 10000

  /**
   * `NullRequestId`: `unlock` before any `tryLock` passes a null token to the client library,
   * which rejects it. `WatchdogRejected`: a `tryLock` that wins after `unlock` schedules on a
   * shut-down executor, which throws although the key has already been set.
   */
  datatype LockError = NullRequestId | WatchdogRejected

  /** Successive firings of the watchdog task for `token`, at the times in `ticks`. */
  function RenewAll(entries: Entries, token: string, ticks: seq<int>): Entries
    decreases |ticks|
  {
    if ticks == [] then entries
    else RenewAll(ExpireIfHeld(entries, LockKey, token, LockExpireTime, ticks[0]).1, token, ticks[1..])
  }

  /** Firings no further apart than the watchdog interval. */
  predicate OnSchedule(ticks: seq<int>) {
    forall i :: 0 <= i < |ticks| - 1 ==> ticks[i] <= ticks[i + 1] <= ticks[i] + WatchdogInterval
  }

  /** One firing extends the lease iff the key still holds the token, and otherwise changes nothing. */
  lemma RenewalRule(entries: Entries, token: string, now: int)
    ensures var (ok, after) := ExpireIfHeld(entries, LockKey, token, LockExpireTime, now);
      && (ok <==> Get(entries, LockKey, now) == Some(token))
      && (ok ==> after == entries[LockKey := Entry(token, now + LockExpireTime)])
      && (!ok ==> after == entries)
  {
  }

  /**
   * Because the interval is shorter than the lease, a holder whose watchdog fires on schedule
   * never loses the key: after the last firing it still holds it, with a fresh full lease.
   */
  lemma {:induction false} RenewalKeepsLease(entries: Entries, token: string, ticks: seq<int>)
    requires ticks != [] && OnSchedule(ticks)
    requires Get(entries, LockKey, ticks[0]) == Some(token)
    ensures RenewAll(entries, token, ticks) == entries[LockKey := Entry(token, ticks[|ticks| - 1] + LockExpireTime)]
    decreases |ticks|
  {
    var next := ExpireIfHeld(entries, LockKey, token, LockExpireTime, ticks[0]).1;
    assert next == entries[LockKey := Entry(token, ticks[0] + LockExpireTime)];
    if |ticks| > 1 {
      assert OnSchedule(ticks[1..]) by {
        forall i | 0 <= i < |ticks[1..]| - 1
          ensures ticks[1..][i] <= ticks[1..][i + 1] <= ticks[1..][i] + WatchdogInterval
        {
          assert ticks[1..][i] == ticks[i + 1] && ticks[1..][i + 1] == ticks[i + 2];
        }
      }
      assert ticks[1] <= ticks[0] + WatchdogInterval;
      RenewalKeepsLease(next, token, ticks[1..]);
      assert ticks[1..][|ticks[1..]| - 1] == ticks[|ticks| - 1];
    }
  }

  /** The holder keeps the lock at every moment up to a full lease after the last firing. */
  lemma HeldUntilLeaseAfterLastTick(entries: Entries, token: string, ticks: seq<int>, t: int)
    requires ticks != [] && OnSchedule(ticks)
    requires Get(entries, LockKey, ticks[0]) == Some(token)
    requires t <= ticks[|ticks| - 1] + LockExpireTime
    ensures Get(RenewAll(entries, token, ticks), LockKey, t) == Some(token)
  {
    RenewalKeepsLease(entries, token, ticks);
  }

  /** Firings for a token that does not hold the key change nothing. */
  lemma {:induction false} RenewalByOthersChangesNothing(entries: Entries, token: string, ticks: seq<int>)
    requires LockKey in entries && entries[LockKey].value != token
    ensures RenewAll(entries, token, ticks) == entries
    decreases |ticks|
  {
    if ticks != [] {
      assert ExpireIfHeld(entries, LockKey, token, LockExpireTime, ticks[0]).1 == entries;
      RenewalByOthersChangesNothing(entries, token, ticks[1..]);
    }
  }

  class RedisDistributedLockWithRenewal {
    const store: Store
    /** The token of the latest `tryLock`, whether it won or not; `None` before the first. */
    var requestId: Option<string>
    /** A renewal task has been scheduled on the executor. */
    var watchdogScheduled: bool
    /** The executor has been shut down by `unlock`; it never runs or accepts tasks again. */
    var watchdogShutdown: bool

    predicate Valid()
      reads this
    {
      watchdogScheduled ==> requestId.Some?
    }

    constructor (store: Store)
      ensures Valid()
      ensures this.store == store && requestId == None && !watchdogScheduled && !watchdogShutdown
    {
      this.store := store;
      requestId := None;
      watchdogScheduled := false;
      watchdogShutdown := false;
    }

    method TryLock(requestId: string, now: int) returns (r: Result<bool, LockError>)
      requires Valid()
      modifies this, store
      ensures Valid()
      ensures this.requestId == Some(requestId)
      ensures store.entries == SetIfAbsent(old(store.entries), LockKey, requestId, LockExpireTime, now).1
      ensures var acquired := SetIfAbsent(old(store.entries), LockKey, requestId, LockExpireTime, now).0;
        && r == (if !acquired then Success(false)
                 else if old(watchdogShutdown) then Failure(WatchdogRejected)
                 else Success(true))
        && watchdogScheduled == (old(watchdogScheduled) || (acquired && !old(watchdogShutdown)))
      ensures watchdogShutdown == old(watchdogShutdown)
    {
      this.requestId := Some(requestId);
      var acquired := store.SetNxPx(LockKey, requestId, LockExpireTime, now);
      if !acquired {
        return Success(false);
      }
      if watchdogShutdown {
        return Failure(WatchdogRejected);
      }
      watchdogScheduled := true;
      r := Success(true);
    }

    /** One firing of the scheduled renewal task, with the token held in the field at that moment. */
    method WatchdogTick(now: int)
      requires Valid()
      modifies store
      ensures store.entries ==
        if watchdogScheduled && !watchdogShutdown
        then ExpireIfHeld(old(store.entries), LockKey, requestId.value, LockExpireTime, now).1
        else old(store.entries)
    {
      if watchdogScheduled && !watchdogShutdown {
        var _ := store.EvalExpireIfHeld(LockKey, requestId.value, LockExpireTime, now);
      }
    }

    method Unlock(now: int) returns (r: Result<bool, LockError>)
      requires Valid()
      modifies this, store
      ensures Valid()
      ensures watchdogShutdown && requestId == old(requestId) && watchdogScheduled == old(watchdogScheduled)
      ensures requestId.None? ==> r == Failure(NullRequestId) && store.entries == old(store.entries)
      ensures requestId.Some? ==>
        r.Success? && (r.value, store.entries) == DeleteIfHeld(old(store.entries), LockKey, requestId.value, now)
    {
      watchdogShutdown := true;
      if requestId.None? {
        return Failure(NullRequestId);
      }
      var deleted := store.EvalDeleteIfHeld(LockKey, requestId.value, now);
      r := Success(deleted);
    }
  }

  /**
   * An object that acquired with `a` and then lost a `tryLock(b)` compares against `b` when
   * it releases: the release fails and `a`'s key stays in place.
   */
  method StaleRequestIdScenario(a: string, b: string, now: int)
    returns (first: Result<bool, LockError>, second: Result<bool, LockError>, released: Result<bool, LockError>,
             holder: Option<string>)
    requires a != b
    ensures first == Success(true) && second == Success(false) && released == Success(false)
    ensures holder == Some(a)
  {
    var store := new Store(map[]);
    var lock := new RedisDistributedLockWithRenewal(store);
    first := lock.TryLock(a, now);
    second := lock.TryLock(b, now);
    released := lock.Unlock(now);
    holder := Get(store.entries, LockKey, now);
  }

  /**
   * A task running for 40000 ms keeps the lock through four watchdog firings: a rival is turned
   * away at the end and the holder's release, at that same instant, succeeds. On a copy of the
   * store taken before the release, where no further firing comes, a rival wins one millisecond
   * after the last renewed lease runs out. The shared store's clock never goes backwards.
   */
  method LongTaskScenario(a: string, c: string, t0: int)
    returns (acquired: Result<bool, LockError>, rivalEarly: Result<bool, LockError>,
             released: Result<bool, LockError>, rivalAfterLapse: Result<bool, LockError>)
    requires a != c
    ensures acquired == Success(true) && rivalEarly == Success(false) && released == Success(true)
    ensures rivalAfterLapse == Success(true)
  {
    var store := new Store(map[]);
    var lock := new RedisDistributedLockWithRenewal(store);
    var rival := new RedisDistributedLockWithRenewal(store);
    acquired := lock.TryLock(a, t0);
    lock.WatchdogTick(t0 + WatchdogInterval);
    lock.WatchdogTick(t0 + 2 * WatchdogInterval);
    lock.WatchdogTick(t0 + 3 * WatchdogInterval);
    lock.WatchdogTick(t0 + 4 * WatchdogInterval);
    rivalEarly := rival.TryLock(c, t0 + 4 * WatchdogInterval);

    var lapsed := new Store(store.entries);
    var rival2 := new RedisDistributedLockWithRenewal(lapsed);
    rivalAfterLapse := rival2.TryLock(c, t0 + 4 * WatchdogInterval + LockExpireTime + 1);

    released := lock.Unlock(t0 + 4 * WatchdogInterval);
  }

  /**
   * The executor is not recreated after `unlock`: a second `tryLock` on the same object sets
   * the key and then fails to schedule its renewal.
   */
  method ReuseAfterUnlockScenario(a: string, now: int)
    returns (first: Result<bool, LockError>, released: Result<bool, LockError>, again: Result<bool, LockError>,
             holder: Option<string>)
    ensures first == Success(true) && released == Success(true) && again == Failure(WatchdogRejected)
    ensures holder == Some(a)
  {
    var store := new Store(map[]);
    var lock := new RedisDistributedLockWithRenewal(store);
    first := lock.TryLock(a, now);
    released := lock.Unlock(now);
    again := lock.TryLock(a, now);
    holder := Get(store.entries, LockKey, now);
  }
}
