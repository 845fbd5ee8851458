# Java utility toolkit: verified model of its core

This project models, in Dafny, the core of a Java utility library:

- a Snowflake identifier generator;
- four rate limiters: fixed window, sliding window, leaky bucket and token bucket;
- a Bloom filter kept as a Redis bitmap;
- two Redis lease locks, one of them renewed by a watchdog;
- a few pure helpers: string utilities, input validators, lowercase hex encoding and file-type lookup.

It proves properties of the model.

The model takes the code's own form:

- **Stateful classes.** Each class whose fields change becomes a Dafny `class` with the same fields. Its methods are proved against a pure function over a datatype of that state.
- **Pure helpers.** These become functions and lemmas.
- **Clock.** `System.currentTimeMillis()` is a `now` parameter. The wait loop of the identifier generator reads a supplied sequence of later clock readings.
- **Redis.** The server is an in-memory `Store` holding a map from key to (value, absolute expiry). Each command and each Lua script is one atomic method on it.
- **Java integers.** Widths, wrap-around, `%` and `Math.abs` are written out in `JavaInts`.

Modules:

| module | file |
|---|---|
| `Wrappers` | `Option` and `Result` |
| `JavaInts` | Java byte, `int` and `long` semantics |
| `SnowflakeId` | `SnowflakeIdGenerator` |
| `FixedWindow`, `SlidingWindow`, `LeakyBucket`, `TokenBucket` | the four rate limiters |
| `Bloom` | `BloomFilter` |
| `KeyValueStore` | the Redis commands the locks use |
| `DistributedLock`, `DistributedLockWithRenewal` | the two locks |
| `StringUtils`, `DataValidator`, `CryptoUtils`, `FileUtils` | the helpers |

## Model

| member | source | states |
|---|---|---|
| SnowflakeId.MaskValues | src/main/java/com/example/utils/distributedidicreate/SnowflakeIdGenerator.java:7-15 | `~(-1L << 10)` is 1023 and `~(-1L << 12)` is 4095; the machine-id and timestamp shifts are multiplications by 2^12 and 2^22 |
| SnowflakeId.CheckMachineId | src/main/java/com/example/utils/distributedidicreate/SnowflakeIdGenerator.java:21-25 | a machine id is accepted iff it lies in 0..1023, and is otherwise rejected with InvalidMachineId |
| SnowflakeId.SnowflakeIdGenerator.Create | src/main/java/com/example/utils/distributedidicreate/SnowflakeIdGenerator.java:17-26 | the constructor fails exactly for an out-of-range id; otherwise it yields a generator with that id, sequence 0 and lastTimestamp -1 |
| SnowflakeId.MakeId | src/main/java/com/example/utils/distributedidicreate/SnowflakeIdGenerator.java:54-56 | the packed identifier is a Java long, congruent modulo 2^64 to the sum of the shifted fields |
| SnowflakeId.IdLayout | src/main/java/com/example/utils/distributedidicreate/SnowflakeIdGenerator.java:54-56 | for a timestamp within 41 bits of the epoch, the ORs add, the id is non-negative and below 2^63, and the timestamp, machine id and sequence read back from it |
| SnowflakeId.IdIncreasing | src/main/java/com/example/utils/distributedidicreate/SnowflakeIdGenerator.java:54-56 | on one machine, ids are ordered exactly as their (timestamp, sequence) pairs |
| SnowflakeId.FirstAfterIndex | src/main/java/com/example/utils/distributedidicreate/SnowflakeIdGenerator.java:62-68 | the position of the first clock reading later than the last timestamp, with every earlier reading not later |
| SnowflakeId.SnowflakeIdGenerator.WaitNextMillis | src/main/java/com/example/utils/distributedidicreate/SnowflakeIdGenerator.java:62-68 | the wait loop returns the first reading after lastTimestamp, which is strictly later |
| SnowflakeId.SnowflakeIdGenerator.NextId | src/main/java/com/example/utils/distributedidicreate/SnowflakeIdGenerator.java:31-57 | four cases, and in each the (lastTimestamp, sequence) pair strictly advances and the result is the id packed from the new state: a backwards clock fails and changes nothing; a new millisecond resets the sequence; the same millisecond increments it; a wrapped sequence waits for the next millisecond |
| SnowflakeId.SuccessiveIdsIncrease | src/main/java/com/example/utils/distributedidicreate/SnowflakeIdGenerator.java:31-57 | two successful successive calls return strictly increasing ids |
| FixedWindow.Acquire | src/main/java/com/example/utils/ratelimitutils/FixedWindowRateLimiter.java:21-30 | admitted iff the new count is within the limit; the window start stays or moves to now, and for a non-negative window size the call always lies in the window it leaves |
| FixedWindow.RestartingCall | src/main/java/com/example/utils/ratelimitutils/FixedWindowRateLimiter.java:24-29 | a call more than windowSize ms after the window start restarts the window at now with counter 1, and is admitted iff limit >= 1 |
| FixedWindow.CallWithinWindow | src/main/java/com/example/utils/ratelimitutils/FixedWindowRateLimiter.java:24-29 | a call at most windowSize ms after the start counts itself whether admitted or not, keeps the start, and is admitted iff the new count is within the limit |
| FixedWindow.RunWithinWindow | src/main/java/com/example/utils/ratelimitutils/FixedWindowRateLimiter.java:21-30 | within one window, exactly the first limit - counter calls are admitted and every later one is rejected |
| FixedWindow.BurstScenario | src/main/java/com/example/utils/ratelimitutils/FixedWindowRateLimiter.java:21-30 | successive tryAcquire calls with limit 10 per 1000 ms: of 20 calls at the window start exactly the first 10 pass; a call at +1000 ms fails and one at +1001 ms passes |
| FixedWindow.FixedWindowRateLimiter.constructor | src/main/java/com/example/utils/ratelimitutils/FixedWindowRateLimiter.java:14-19 | counter 0 and the window starting at construction time |
| FixedWindow.FixedWindowRateLimiter.TryAcquire | src/main/java/com/example/utils/ratelimitutils/FixedWindowRateLimiter.java:21-30 | the decision and the new counter and window start are those of Acquire on the old state |
| SlidingWindow.Evict | src/main/java/com/example/utils/ratelimitutils/SlidingWindowRateLimiter.java:23-25 | eviction drops a prefix of times each more than windowSize ms old and stops at the first time that is not |
| SlidingWindow.Acquire | src/main/java/com/example/utils/ratelimitutils/SlidingWindowRateLimiter.java:20-32 | an admission leaves at most limit times ending with now; a rejection leaves at least limit times and no more than before; no time is invented except now on admission |
| SlidingWindow.AdmissionRule | src/main/java/com/example/utils/ratelimitutils/SlidingWindowRateLimiter.java:20-32 | admitted iff fewer than limit times survive eviction; an admission appends now and a rejection adds nothing |
| SlidingWindow.AcquireKeepsBound | src/main/java/com/example/utils/ratelimitutils/SlidingWindowRateLimiter.java:27-31 | the queue never holds more than limit times |
| SlidingWindow.EdgeTimeKept | src/main/java/com/example/utils/ratelimitutils/SlidingWindowRateLimiter.java:23 | a time exactly windowSize ms old is not evicted |
| SlidingWindow.EvictedQueueWithinWindow | src/main/java/com/example/utils/ratelimitutils/SlidingWindowRateLimiter.java:23-25 | in a time-ordered queue every surviving time is within windowSize ms of now |
| SlidingWindow.AcquireKeepsSorted | src/main/java/com/example/utils/ratelimitutils/SlidingWindowRateLimiter.java:20-32 | with non-decreasing call times the queue stays time-ordered, its last time being the latest call |
| SlidingWindow.EvictCountsWindow | src/main/java/com/example/utils/ratelimitutils/SlidingWindowRateLimiter.java:20-32 | for an ordered queue the survivors are exactly the times within the trailing window, so admission counts the admitted calls of the last windowSize ms |
| SlidingWindow.SlidingWindowRateLimiter.constructor | src/main/java/com/example/utils/ratelimitutils/SlidingWindowRateLimiter.java:14-18 | an empty queue |
| SlidingWindow.SlidingWindowRateLimiter.TryAcquire | src/main/java/com/example/utils/ratelimitutils/SlidingWindowRateLimiter.java:20-32 | the eviction loop and the admission leave the decision and queue of Acquire |
| LeakyBucket.Leak | src/main/java/com/example/utils/ratelimitutils/LeakyBucketRateLimiter.java:24-28 | either nothing changes, or the drain time moves to now and the level drops to somewhere in 0..max(0, old level); a change needs a non-zero rate and elapsed time |
| LeakyBucket.Acquire | src/main/java/com/example/utils/ratelimitutils/LeakyBucketRateLimiter.java:21-35 | an admission leaves the level at most capacity, a rejection happens only with the level at capacity or above, and the drain time is that of Leak |
| LeakyBucket.LeakLowers | src/main/java/com/example/utils/ratelimitutils/LeakyBucketRateLimiter.java:24-28 | draining never raises the level and never takes it below 0 |
| LeakyBucket.AdmissionRule | src/main/java/com/example/utils/ratelimitutils/LeakyBucketRateLimiter.java:21-35 | admitted iff the drained level is below capacity; an admission adds exactly 1 and a rejection keeps the drained state |
| LeakyBucket.AcquireKeepsBounds | src/main/java/com/example/utils/ratelimitutils/LeakyBucketRateLimiter.java:21-35 | the level stays within 0..capacity |
| LeakyBucket.LeakSettled | src/main/java/com/example/utils/ratelimitutils/LeakyBucketRateLimiter.java:24-28 | a second drain at the same instant changes nothing |
| LeakyBucket.RunAtOneInstant | src/main/java/com/example/utils/ratelimitutils/LeakyBucketRateLimiter.java:21-35 | for calls at one instant, call i is admitted iff the drained level plus i is below capacity |
| LeakyBucket.FromEmpty | src/main/java/com/example/utils/ratelimitutils/LeakyBucketRateLimiter.java:21-35 | from an empty bucket with no time passing, exactly capacity calls pass |
| LeakyBucket.LeakyBucketRateLimiter.constructor | src/main/java/com/example/utils/ratelimitutils/LeakyBucketRateLimiter.java:14-19 | an empty bucket last drained at construction time |
| LeakyBucket.LeakyBucketRateLimiter.TryAcquire | src/main/java/com/example/utils/ratelimitutils/LeakyBucketRateLimiter.java:21-35 | the decision and new state are those of Acquire on the old state |
| TokenBucket.Refill | src/main/java/com/example/utils/ratelimitutils/TokenBucketRateLimiter.java:24-28 | either nothing changes, or the refill time moves to now and the tokens land between min(capacity, old tokens) and capacity; a change needs a non-zero rate and elapsed time |
| TokenBucket.Acquire | src/main/java/com/example/utils/ratelimitutils/TokenBucketRateLimiter.java:21-35 | an admission never leaves the tokens negative, a rejection happens only with no token left, and the refill time is that of Refill |
| TokenBucket.RefillRaises | src/main/java/com/example/utils/ratelimitutils/TokenBucketRateLimiter.java:24-28 | refilling never lowers the tokens and never exceeds capacity |
| TokenBucket.AdmissionRule | src/main/java/com/example/utils/ratelimitutils/TokenBucketRateLimiter.java:21-35 | admitted iff a token is left after refilling; an admission takes exactly one and a rejection keeps the refilled state |
| TokenBucket.AcquireKeepsBounds | src/main/java/com/example/utils/ratelimitutils/TokenBucketRateLimiter.java:21-35 | the tokens stay at most capacity and never go negative |
| TokenBucket.RefillSettled | src/main/java/com/example/utils/ratelimitutils/TokenBucketRateLimiter.java:24-28 | a second refill at the same instant changes nothing |
| TokenBucket.RunAtOneInstant | src/main/java/com/example/utils/ratelimitutils/TokenBucketRateLimiter.java:21-35 | for calls at one instant, call i is admitted iff more than i tokens are there after refilling, and the final token count follows |
| TokenBucket.RefillScenario | src/main/java/com/example/utils/ratelimitutils/TokenBucketRateLimiter.java:21-35 | successive tryAcquire calls with capacity 10 and rate 1 per ms: from a full bucket, 10 calls at one instant pass and the 11th fails; 5 ms later exactly 5 more pass and the next fails |
| TokenBucket.TokenBucketRateLimiter.constructor | src/main/java/com/example/utils/ratelimitutils/TokenBucketRateLimiter.java:14-19 | a full bucket last refilled at construction time |
| TokenBucket.TokenBucketRateLimiter.TryAcquire | src/main/java/com/example/utils/ratelimitutils/TokenBucketRateLimiter.java:21-35 | the decision and new state are those of Acquire on the old state |
| JavaInts.Unsigned | src/main/java/com/example/utils/redis/bloomfilter/BloomFilter.java:97 | `b & 0xFF` is the byte's value in 0..255, the byte plus 256 when negative |
| JavaInts.ToInt32 | src/main/java/com/example/utils/redis/bloomfilter/BloomFilter.java:95-99 | the `int` kept by 32-bit arithmetic: in range, and equal to x, or x - 2^32 above 2^31 |
| JavaInts.JavaRem | src/main/java/com/example/utils/redis/bloomfilter/BloomFilter.java:83 | Java `%` truncates: the remainder is below the divisor in size and takes the sign of the dividend |
| JavaInts.JavaAbs | src/main/java/com/example/utils/redis/bloomfilter/BloomFilter.java:83 | `Math.abs` leaves -2^31 unchanged and is otherwise the non-negative magnitude |
| Bloom.BitSizeValue | src/main/java/com/example/utils/redis/bloomfilter/BloomFilter.java:15 | `2 << 28` is 2^29 |
| Bloom.Window | src/main/java/com/example/utils/redis/bloomfilter/BloomFilter.java:94-100 | n digest bytes taken cyclically from the seed, as an unsigned big-endian number below 256^n |
| Bloom.WindowIsBigEndian | src/main/java/com/example/utils/redis/bloomfilter/BloomFilter.java:94-100 | the shift-and-or hash is the four-byte window read as a 32-bit two's-complement number |
| Bloom.HashValue | src/main/java/com/example/utils/redis/bloomfilter/BloomFilter.java:94-100 | a Java int whose low byte is the digest byte at seed + 3 (cyclically) |
| Bloom.Index | src/main/java/com/example/utils/redis/bloomfilter/BloomFilter.java:83 | `Math.abs(hash % BIT_SIZE)` always lies in 0..BIT_SIZE-1 |
| Bloom.HashIndexes | src/main/java/com/example/utils/redis/bloomfilter/BloomFilter.java:75-89 | five indexes, one per seed 0..4, each in range |
| Bloom.MayContain | src/main/java/com/example/utils/redis/bloomfilter/BloomFilter.java:49-63 | the answer of contains: every one of the five indexes of the digest is a set bit (its properties are in the lemmas below) |
| Bloom.MayContainIffIndexesSet | src/main/java/com/example/utils/redis/bloomfilter/BloomFilter.java:49-63 | contains answers true iff all five bits of the item are set |
| Bloom.NoFalseNegative | src/main/java/com/example/utils/redis/bloomfilter/BloomFilter.java:27-63 | after adding an item, contains answers true for it |
| Bloom.MayContainMonotone | src/main/java/com/example/utils/redis/bloomfilter/BloomFilter.java:49-63 | setting more bits never turns a true answer false |
| Bloom.EmptyContainsNothing | src/main/java/com/example/utils/redis/bloomfilter/BloomFilter.java:68-70 | after delete, contains answers false for every item |
| Bloom.ItemsBitsCover | src/main/java/com/example/utils/redis/bloomfilter/BloomFilter.java:34-44 | addAll sets the bits of every item in the list |
| Bloom.AddAllNoFalseNegatives | src/main/java/com/example/utils/redis/bloomfilter/BloomFilter.java:34-63 | after addAll, contains answers true for every item in the list |
| Bloom.AddedBitsBelongToItems | src/main/java/com/example/utils/redis/bloomfilter/BloomFilter.java:34-44 | addAll sets no bit that is not an index of one of its items |
| Bloom.BloomFilter.constructor | src/main/java/com/example/utils/redis/bloomfilter/BloomFilter.java:20-22 | a filter over the given bitmap |
| Bloom.BloomFilter.Hash | src/main/java/com/example/utils/redis/bloomfilter/BloomFilter.java:94-100 | the loop computes the closed-form hash of the seed |
| Bloom.BloomFilter.GetHashIndexes | src/main/java/com/example/utils/redis/bloomfilter/BloomFilter.java:75-89 | a fresh array holding the five indexes of the item's digest |
| Bloom.BloomFilter.Add | src/main/java/com/example/utils/redis/bloomfilter/BloomFilter.java:27-29 | sets exactly the item's bits |
| Bloom.BloomFilter.AddAll | src/main/java/com/example/utils/redis/bloomfilter/BloomFilter.java:34-44 | sets exactly the bits of the listed items |
| Bloom.BloomFilter.SetBits | src/main/java/com/example/utils/redis/bloomfilter/BloomFilter.java:38-40 | sets exactly the bits in the array |
| Bloom.BloomFilter.Contains | src/main/java/com/example/utils/redis/bloomfilter/BloomFilter.java:49-63 | true iff every one of the item's five bits is set |
| Bloom.BloomFilter.Delete | src/main/java/com/example/utils/redis/bloomfilter/BloomFilter.java:68-70 | clears the bitmap |
| KeyValueStore.Get | src/main/java/com/example/utils/lock/RedisDistributedLock.java:53 | GET returns a value iff the key is live, and then its stored value |
| KeyValueStore.SetIfAbsent | src/main/java/com/example/utils/lock/RedisDistributedLock.java:40-42 | SET NX PX succeeds iff the key is not live; on success the key reads as the value until now + ttl and as nil after; on failure nothing changes; other keys read the same at every time |
| KeyValueStore.DeleteIfHeld | src/main/java/com/example/utils/lock/RedisDistributedLock.java:53-59 | the release script deletes iff the key reads as the value; after a delete the key reads as nil at every time; otherwise nothing changes; other keys read the same |
| KeyValueStore.ExpireIfHeld | src/main/java/com/example/utils/lock/RedisDistributedLockWithRenewal.java:49-55 | the renewal script succeeds iff the key reads as the value; it then reads as the value until now + ttl and as nil after; otherwise nothing changes; other keys read the same |
| KeyValueStore.Store.SetNxPx | src/main/java/com/example/utils/lock/RedisDistributedLock.java:40-42 | SET NX PX on the store is SetIfAbsent |
| KeyValueStore.Store.EvalDeleteIfHeld | src/main/java/com/example/utils/lock/RedisDistributedLock.java:53-59 | the release script on the store is DeleteIfHeld |
| KeyValueStore.Store.EvalExpireIfHeld | src/main/java/com/example/utils/lock/RedisDistributedLockWithRenewal.java:49-55 | the renewal script on the store is ExpireIfHeld |
| DistributedLock.TryLockRule | src/main/java/com/example/utils/lock/RedisDistributedLock.java:39-43 | tryLock succeeds iff no live holder exists; the winner then holds the key for the whole 30000 ms lease; a failure changes nothing |
| DistributedLock.UnlockRule | src/main/java/com/example/utils/lock/RedisDistributedLock.java:51-60 | unlock succeeds iff the caller's token holds the lock, and then removes only that key; otherwise it changes nothing |
| DistributedLock.ReleaseFreesLock | src/main/java/com/example/utils/lock/RedisDistributedLock.java:39-60 | after the holder's successful unlock, the next tryLock by any token succeeds |
| DistributedLock.OthersCannotTakeOrRelease | src/main/java/com/example/utils/lock/RedisDistributedLock.java:39-60 | until the lease expires, no interleaving of tryLock and unlock by other tokens changes the store, so the holder keeps the lock |
| DistributedLock.RedisDistributedLock.constructor | src/main/java/com/example/utils/lock/RedisDistributedLock.java:29-31 | a lock over the given store |
| DistributedLock.RedisDistributedLock.TryLock | src/main/java/com/example/utils/lock/RedisDistributedLock.java:39-43 | SET NX PX of the token with a 30000 ms lease |
| DistributedLock.RedisDistributedLock.Unlock | src/main/java/com/example/utils/lock/RedisDistributedLock.java:51-60 | compare-and-delete of the token |
| DistributedLock.TwoContenders | src/main/java/com/example/utils/lock/RedisDistributedLock.java:39-60 | of two racing clients exactly one wins; the loser cannot release; the winner can; then a third client wins |
| DistributedLockWithRenewal.RenewalRule | src/main/java/com/example/utils/lock/RedisDistributedLockWithRenewal.java:49-55 | one renewal extends the lease to now + 30000 iff the key holds the token, and otherwise changes nothing |
| DistributedLockWithRenewal.RenewalKeepsLease | src/main/java/com/example/utils/lock/RedisDistributedLockWithRenewal.java:14-16 | renewals no more than 10000 ms apart never let the 30000 ms lease lapse: the holder keeps the key, with a full lease from the last renewal |
| DistributedLockWithRenewal.HeldUntilLeaseAfterLastTick | src/main/java/com/example/utils/lock/RedisDistributedLockWithRenewal.java:48-57 | the holder keeps the lock up to 30000 ms after the last renewal |
| DistributedLockWithRenewal.RenewalByOthersChangesNothing | src/main/java/com/example/utils/lock/RedisDistributedLockWithRenewal.java:49-55 | renewals with a token that does not hold the key change nothing |
| DistributedLockWithRenewal.RedisDistributedLockWithRenewal.constructor | src/main/java/com/example/utils/lock/RedisDistributedLockWithRenewal.java:22-25 | no token yet, and a live executor with nothing scheduled |
| DistributedLockWithRenewal.RedisDistributedLockWithRenewal.TryLock | src/main/java/com/example/utils/lock/RedisDistributedLockWithRenewal.java:33-43 | always records the token; SET NX PX decides; a win schedules the watchdog, or fails with WatchdogRejected once the executor is shut down, the key being already set |
| DistributedLockWithRenewal.RedisDistributedLockWithRenewal.WatchdogTick | src/main/java/com/example/utils/lock/RedisDistributedLockWithRenewal.java:48-57 | while scheduled and not shut down, one firing renews with the token currently in the field; otherwise nothing |
| DistributedLockWithRenewal.RedisDistributedLockWithRenewal.Unlock | src/main/java/com/example/utils/lock/RedisDistributedLockWithRenewal.java:64-74 | shuts the watchdog down for good, then compare-and-deletes with the field's token; without one it fails with NullRequestId |
| DistributedLockWithRenewal.StaleRequestIdScenario | src/main/java/com/example/utils/lock/RedisDistributedLockWithRenewal.java:33-74 | after acquiring with a and losing tryLock(b), unlock compares against b, fails, and leaves a's key |
| DistributedLockWithRenewal.LongTaskScenario | src/main/java/com/example/utils/lock/RedisDistributedLockWithRenewal.java:76-95 | a 40000 ms task keeps the lock through four renewals and releases it; once renewals stop and the lease runs out, a rival wins |
| DistributedLockWithRenewal.ReuseAfterUnlockScenario | src/main/java/com/example/utils/lock/RedisDistributedLockWithRenewal.java:33-74 | a second tryLock on an unlocked object sets the key but cannot schedule its renewal |
| StringUtils.StripLeading | src/main/java/com/example/utils/StringUtils.java:34-36 | removes the longest prefix of characters at most ' ' and keeps the rest |
| StringUtils.StripTrailing | src/main/java/com/example/utils/StringUtils.java:34-36 | removes the longest suffix of characters at most ' ' and keeps the rest |
| StringUtils.Trim | src/main/java/com/example/utils/StringUtils.java:34-36 | the trimmed string is no longer than the input and has no character at most ' ' at either end |
| StringUtils.TrimShape | src/main/java/com/example/utils/StringUtils.java:34-36 | the trimmed text is a slice of the input with no trimmable character at either end, and everything outside it is trimmable |
| StringUtils.TrimIdempotent | src/main/java/com/example/utils/StringUtils.java:34-36 | trimming twice is trimming once |
| StringUtils.TrimEmptyIff | src/main/java/com/example/utils/StringUtils.java:14-16 | a string trims to empty iff every character is at most ' ' |
| StringUtils.IsBlank | src/main/java/com/example/utils/StringUtils.java:14-16 | isBlank iff null or every character is at most ' ' |
| StringUtils.IsNotBlank | src/main/java/com/example/utils/StringUtils.java:24-26 | isNotBlank iff non-null with some character above ' ' |
| StringUtils.TrimOrNull | src/main/java/com/example/utils/StringUtils.java:34-36 | trim(null) is null; otherwise the trimmed string, empty exactly for blank input |
| StringUtils.AlphabetIsAlphanumeric | src/main/java/com/example/utils/StringUtils.java:49 | the alphabet has 62 characters, all ASCII letters or digits |
| StringUtils.RandomString | src/main/java/com/example/utils/StringUtils.java:44-58 | fails iff length <= 0; otherwise length characters, the i-th being the alphabet character at the i-th draw, all alphanumeric |
| StringUtils.IsNumeric | src/main/java/com/example/utils/StringUtils.java:66-71 | isNumeric iff non-null, non-empty and all digits: the blank guard rules out only the empty string |
| StringUtils.NumericExamples | src/main/java/com/example/utils/StringUtils.java:179-180 | "12345" is numeric and "123a45" is not |
| StringUtils.IsPhone | src/main/java/com/example/utils/StringUtils.java:93-99 | isPhone iff non-null and 11 characters: '1', then '3'..'9', then 9 digits |
| StringUtils.PhoneExamples | src/main/java/com/example/utils/StringUtils.java:187-188 | "13800138000" is a phone number and "12345678901" is not |
| StringUtils.Substring | src/main/java/com/example/utils/StringUtils.java:109-117 | blank input is returned unchanged; otherwise it fails iff not 0 <= start <= end <= length, and else returns characters [start, end) |
| StringUtils.SubstringExample | src/main/java/com/example/utils/StringUtils.java:191 | ("Hello World", 0, 5) gives "Hello" |
| StringUtils.Reversed | src/main/java/com/example/utils/StringUtils.java:129 | same length, character i taken from position length-1-i |
| StringUtils.Reverse | src/main/java/com/example/utils/StringUtils.java:125-130 | a blank input comes back unchanged; any other string comes back with the same length and character i taken from position length-1-i |
| StringUtils.ReversedInvolution | src/main/java/com/example/utils/StringUtils.java:125-130 | reversing a string twice gives it back |
| StringUtils.ReversedKeepsBlank | src/main/java/com/example/utils/StringUtils.java:125-130 | reversal keeps a string blank or not blank |
| StringUtils.ReverseInvolution | src/main/java/com/example/utils/StringUtils.java:125-130 | reverse(reverse(s)) == s for every s, null and blank included |
| StringUtils.ReverseExample | src/main/java/com/example/utils/StringUtils.java:194 | "Hello" reverses to "olleH" |
| StringUtils.Joined | src/main/java/com/example/utils/StringUtils.java:153-165 | the parts with the delimiter between consecutive parts, the reference the join loop is proved against (its properties are in the lemmas below) |
| StringUtils.JoinedLength | src/main/java/com/example/utils/StringUtils.java:153-165 | n parts carry exactly n - 1 delimiters |
| StringUtils.JoinedConcat | src/main/java/com/example/utils/StringUtils.java:153-165 | joining two runs of parts is joining each with one delimiter between |
| StringUtils.JoinedEnds | src/main/java/com/example/utils/StringUtils.java:158-163 | the result begins with the first part and ends with the last: no leading or trailing delimiter |
| StringUtils.JoinExample | src/main/java/com/example/utils/StringUtils.java:200 | joining "A", "B", "C" with ", " gives "A, B, C" |
| StringUtils.Join | src/main/java/com/example/utils/StringUtils.java:153-165 | "" for null or no parts; otherwise the parts with the delimiter between consecutive ones, null written as "null" |
| DataValidator.IsValidEmail | src/main/java/com/example/utils/DataValidator.java:35-42 | false for null or empty input; otherwise the email pattern decides |
| DataValidator.IsValidUrl | src/main/java/com/example/utils/DataValidator.java:80-87 | false for null or empty input; otherwise the URL pattern decides |
| DataValidator.IsValidByRegex | src/main/java/com/example/utils/DataValidator.java:96-101 | false when the input or the pattern is null or empty; otherwise the pattern decides |
| DataValidator.IsValidPhone | src/main/java/com/example/utils/DataValidator.java:50-57 | true iff 11 characters: '1', then '3'..'9', then 9 digits |
| DataValidator.MatchesIdCardPattern | src/main/java/com/example/utils/DataValidator.java:70 | the ID-card pattern: 15 digits, or 17 digits followed by a digit, 'X' or 'x' |
| DataValidator.IsValidIdCard | src/main/java/com/example/utils/DataValidator.java:65-72 | true iff 15 digits, or 17 digits followed by a digit, 'X' or 'x' |
| DataValidator.AbsentIsInvalid | src/main/java/com/example/utils/DataValidator.java:35-101 | every validator rejects a null or empty input, whatever the patterns |
| DataValidator.PhoneValidatorsAgree | src/main/java/com/example/utils/DataValidator.java:50-57 | isValidPhone and StringUtils.isPhone agree on every input |
| DataValidator.IdCardShape | src/main/java/com/example/utils/DataValidator.java:70 | a valid ID card has 15 or 18 characters, all digits but possibly the last |
| DataValidator.PhoneExamples | src/main/java/com/example/utils/DataValidator.java:111-112 | "13800138000" is valid and "12345678901" is not |
| DataValidator.IdCardExamples | src/main/java/com/example/utils/DataValidator.java:116-119 | the three sample valid ID cards in the code pass and the 19-character one fails |
| CryptoUtils.HexDigit | src/main/java/com/example/utils/CryptoUtils.java:209 | a nibble's digit is in 0-9 or a-f |
| CryptoUtils.HexValue | src/main/java/com/example/utils/CryptoUtils.java:209 | a digit's nibble is in 0..15 and maps back to the digit |
| CryptoUtils.HexDigitsTable | src/main/java/com/example/utils/CryptoUtils.java:209 | the digits are "0123456789abcdef" in order |
| CryptoUtils.Hex | src/main/java/com/example/utils/CryptoUtils.java:206-212 | the reference encoding: one two-digit pair per byte, in order (its properties are in HexLayout and the lemmas below) |
| CryptoUtils.BytesToHex | src/main/java/com/example/utils/CryptoUtils.java:206-212 | the loop writes, byte by byte, the encoding Hex of the array's contents |
| CryptoUtils.HexLayout | src/main/java/com/example/utils/CryptoUtils.java:206-212 | the output is twice as long as the input, and byte i is written at characters 2i and 2i+1 |
| CryptoUtils.HexIsLowercase | src/main/java/com/example/utils/CryptoUtils.java:209 | every output character is 0-9 or a-f |
| CryptoUtils.HexAppend | src/main/java/com/example/utils/CryptoUtils.java:207-211 | the encoding of a concatenation is the concatenation of the encodings |
| CryptoUtils.HexRoundTrip | src/main/java/com/example/utils/CryptoUtils.java:208-209 | decoding the output pairwise recovers the input |
| CryptoUtils.HexInjective | src/main/java/com/example/utils/CryptoUtils.java:208-209 | different inputs give different outputs |
| CryptoUtils.DigestLengths | src/main/java/com/example/utils/CryptoUtils.java:44-74 | an MD5 digest gives 32 characters and a SHA-256 digest gives 64 |
| CryptoUtils.PairExamples | src/main/java/com/example/utils/CryptoUtils.java:209 | no sign extension: -1 gives "ff", -128 gives "80" |
| FileUtils.LastIndexOf | src/main/java/com/example/utils/FileUtils.java:182 | the last position of the character, or -1 exactly when it does not occur |
| FileUtils.ToLower | src/main/java/com/example/utils/FileUtils.java:185 | ASCII capitals become small letters and every other character is kept |
| FileUtils.Category | src/main/java/com/example/utils/FileUtils.java:186-202 | one of the six labels; "Unknown" exactly for an extension outside txt, pdf, jpg, jpeg, png, gif, zip and gz; "Image File" exactly for the four image extensions |
| FileUtils.GetFileType | src/main/java/com/example/utils/FileUtils.java:181-203 | always one of the six labels, and "Unknown" for null or a name without '.' |
| FileUtils.ExtensionAfterLastDot | src/main/java/com/example/utils/FileUtils.java:185-201 | only the text after the last '.', lowercased, decides the label |
| FileUtils.UpperCaseExtensionExample | src/main/java/com/example/utils/FileUtils.java:185-188 | "a.b.TXT" is a "Text File" |
| FileUtils.TextFileExample | src/main/java/com/example/utils/FileUtils.java:236 | "test.txt" is a "Text File" |
| FileUtils.ImageFileExample | src/main/java/com/example/utils/FileUtils.java:191-195 | "photo.JPeG" is an "Image File" |
| FileUtils.TrailingDotExample | src/main/java/com/example/utils/FileUtils.java:200-201 | a trailing dot leaves an empty extension: "Unknown" |

## Notes on behaviour

- **Fixed window at the boundary.** The window restarts only when strictly more than the window size has passed (`currentTime - windowStart > windowSizeInMillis`). So a call exactly `windowSize` ms after the window start still counts against the old window, and admission resumes at 1001 ms for a 1000 ms window (`FixedWindow.BurstScenario`).
- **Renewal lock, stale token.** `tryLock` stores its token in `requestId` before knowing whether it wins. So a failed attempt makes a later `unlock` compare against the losing token (`StaleRequestIdScenario`).
- **Renewal lock, reuse.** The watchdog executor is shut down by `unlock` and never recreated. So a later winning `tryLock` on the same object sets the key and then throws from the executor (`ReuseAfterUnlockScenario`).

## Left out

- **Redis transport.** Jedis connections, `pipelined()`/`sync()` batching and Lua text are not modelled. Each command or script is one atomic step on an in-memory map.
- **Expired keys.** The store never purges them; reads treat them as absent. This matches Redis as long as the times passed to the store do not go backwards.
- **Concurrency.** `synchronized`, the atomic counters, and the interleaving of pipelined bit operations are not modelled. Each public call is one sequential step.
- **The watchdog thread.** Each firing of the scheduled task is an explicit `WatchdogTick` call. Its timing is not modelled beyond the interval assumption in `RenewalKeepsLease`.
- **Clock.** `System.currentTimeMillis()` is a parameter. The wait loop's termination rests on supplied readings that eventually pass the last timestamp (`ClockAdvances`).
- **Randomness.** `Random.nextInt(62)` draws are the `picks` parameter of `RandomString`.
- **MD5 inside the Bloom filter.** The digest of an item, including its UTF-8 encoding, is an opaque function `digestOf` from item to 16 bytes.
- **Other library code.** MD5 and SHA-256 themselves, AES, RSA, Base64, and the file-system operations in `FileUtils` are library code, not modelled. So are `StringUtils.format` and `StringUtils.isEmail`.
- **Regular-expression engine.** The email, URL and caller-supplied patterns are decided by a matcher passed in as a parameter. Only the null and empty guards around them are modelled.
- **Out of scope.** The example and demo classes, `DateTimeUtils`, `JsonUtils` and the thread-pool utilities are outside the modelled core. So are the `main` methods, `getJedis`, and the unused `host`, `port` and `LOCK_VALUE` fields.
- **Null arguments the code does not guard.** A null token passed to `tryLock`, or a null item passed to the Bloom filter, makes the Java library throw. The model's tokens and items are never null.
- FixedWindow.FixedWindowRateLimiter.TryAcquire: the counter is unbounded. The Java `AtomicInteger` wraps after 2^31 - 1 increments within one window; that many calls in one window are not modelled.
- LeakyBucket.LeakyBucketRateLimiter.TryAcquire: `(currentTime - lastLeakTime) * rate` is computed without 64-bit wrap-around. Elapsed times and rates whose product overflows a `long` are not modelled.
- TokenBucket.TokenBucketRateLimiter.TryAcquire: `(currentTime - lastRefillTime) * rate` and `tokens + refilled` are computed without 64-bit wrap-around, for the same reason.
- SnowflakeId.IdLayout: the field round trip and ordering are stated for timestamps within 41 bits of the epoch (until about the year 2090). Past that, `MakeId` still wraps as a `long` does, but nothing is proved about it.
- StringUtils.IsNumeric: only '0'..'9' count as digits. `Character.isDigit` also accepts the other Unicode decimal digits, which the model does not capture.
- StringUtils.Substring: indexes count Unicode scalar values, not UTF-16 code units. The two agree on strings without supplementary characters; on others, such as "😀a", Java's `substring` bounds differ.
- StringUtils.Reversed: a character is a Unicode scalar value. `StringBuilder.reverse` keeps surrogate pairs together, so the results agree, but strings with unpaired surrogates are not representable.
- FileUtils.ToLower: only ASCII capitals are lowered. `toLowerCase` uses the default locale's full Unicode mapping. This differs for the six labels only in locales that lower 'I' to something other than 'i', such as Turkish.
