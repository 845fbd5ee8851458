/**
 * The lease lock over the store: `tryLock` is SET NX PX with a 30000 ms lease and `unlock` is a
 * compare-and-delete script, so only the token stored by the winner can release the lock.
 */
module DistributedLock {
  import opened Wrappers
  import opened KeyValueStore

  const LockKey: string := "distributed_lock"
  const LockExpireTime: int := 30000

  /** The token holding the lock at `now`, if any. */
  function Holder(entries: Entries, now: int): Option<string> {
    Get(entries, LockKey, now)
  }

  /**
   * `tryLock` succeeds iff nobody holds the lock; the winner then holds it for the whole lease,
   * and a failed attempt leaves the store untouched.
   */
  lemma TryLockRule(entries: Entries, token: string, now: int)
    ensures var (ok, after) := SetIfAbsent(entries, LockKey, token, LockExpireTime, now);
      && (ok <==> Holder(entries, now).None?)
      && (ok ==> after[LockKey] == Entry(token, now + LockExpireTime)
                 && forall t :: now <= t <= now + LockExpireTime ==> Holder(after, t) == Some(token))
      && (!ok ==> after == entries)
  {
  }

  /**
   * `unlock` succeeds iff the caller's token holds the lock, and then removes the key and nothing
   * else; with another token, or no holder, it changes nothing.
   */
  lemma UnlockRule(entries: Entries, token: string, now: int)
    ensures var (ok, after) := DeleteIfHeld(entries, LockKey, token, now);
      && (ok <==> Holder(entries, now) == Some(token))
      && (ok ==> after == entries - {LockKey} && Holder(after, now).None?)
      && (!ok ==> after == entries)
  {
  }

  /** After the holder's successful release, the next `tryLock`, by any token, succeeds. */
  lemma ReleaseFreesLock(entries: Entries, holder: string, next: string, now: int, later: int)
    requires DeleteIfHeld(entries, LockKey, holder, now).0
    ensures SetIfAbsent(DeleteIfHeld(entries, LockKey, holder, now).1, LockKey, next, LockExpireTime, later).0
  {
  }

  /** What a client other than the holder may do to the lock key. */
  datatype Op = TryLock(token: string, at: int) | Unlock(token: string, at: int)

  function Apply(entries: Entries, op: Op): Entries {
    match op
    case TryLock(token, at) => SetIfAbsent(entries, LockKey, token, LockExpireTime, at).1
    case Unlock(token, at) => DeleteIfHeld(entries, LockKey, token, at).1
  }

  function ApplyAll(entries: Entries, ops: seq<Op>): Entries
    decreases |ops|
  {
    if ops == [] then entries else ApplyAll(Apply(entries, ops[0]), ops[1..])
  }

  /**
   * Mutual exclusion: while a lease held by `holder` runs, any interleaving of `tryLock` and
   * `unlock` calls by other tokens leaves the store exactly as it was, so the holder keeps the
   * lock and nobody else acquires it.
   */
  lemma {:induction false} OthersCannotTakeOrRelease(entries: Entries, holder: string, ops: seq<Op>)
    requires LockKey in entries && entries[LockKey].value == holder
    requires forall i :: 0 <= i < |ops| ==> ops[i].token != holder && ops[i].at <= entries[LockKey].expiresAt
    ensures ApplyAll(entries, ops) == entries
    decreases |ops|
  {
    if ops != [] {
      assert Apply(entries, ops[0]) == entries;
      OthersCannotTakeOrRelease(entries, holder, ops[1..]);
    }
  }

  class RedisDistributedLock {
    const store: Store

    constructor (store: Store)
      ensures this.store == store
    {
      this.store := store;
    }

    method TryLock(requestId: string, now: int) returns (ok: bool)
      modifies store
      ensures (ok, store.entries) == SetIfAbsent(old(store.entries), LockKey, requestId, LockExpireTime, now)
    {
      ok := store.SetNxPx(LockKey, requestId, LockExpireTime, now);
    }

    method Unlock(requestId: string, now: int) returns (ok: bool)
      modifies store
      ensures (ok, store.entries) == DeleteIfHeld(old(store.entries), LockKey, requestId, now)
    {
      ok := store.EvalDeleteIfHeld(LockKey, requestId, now);
    }
  }

  /**
   * Two clients race for the lock on an empty store: exactly one wins; the loser's release
   * fails; the winner's release succeeds; afterwards a third client acquires the lock.
   */
  method TwoContenders(a: string, b: string, c: string, now: int)
    returns (aWon: bool, bWon: bool, bReleased: bool, aReleased: bool, cWon: bool)
    requires a != b
    ensures aWon && !bWon && !bReleased && aReleased && cWon
  {
    var store := new Store(map[]);
    var lockA := new RedisDistributedLock(store);
    var lockB := new RedisDistributedLock(store);
    aWon := lockA.TryLock(a, now);
    bWon := lockB.TryLock(b, now);
    bReleased := lockB.Unlock(b, now);
    aReleased := lockA.Unlock(a, now);
    cWon := lockB.TryLock(c, now);
  }
}
