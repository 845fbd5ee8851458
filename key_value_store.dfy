/**
 * The part of a Redis server the locks use: string keys holding a value and an absolute expiry
 * time in milliseconds. Every command and every Lua script runs as one atomic step at the time
 * it is given. Expired keys may stay in the map; every read treats them as absent.
 */
module KeyValueStore {
  import opened Wrappers

  datatype Entry = Entry(value: string, expiresAt: int)

  type Entries = map<string, Entry>

  /** A key is live at `now` until the clock passes its expiry time. */
  predicate Live(entries: Entries, key: string, now: int) {
    key in entries && now <= entries[key].expiresAt
  }

  /** GET: the value of a live key; an expired or missing key reads as nil. */
  function Get(entries: Entries, key: string, now: int): (r: Option<string>)
    ensures r.Some? <==> Live(entries, key, now)
    ensures r.Some? ==> r.value == entries[key].value
  {
    if Live(entries, key, now) then Some(entries[key].value) else None
  }

  /** SET key value NX PX ttl: true iff the key was free and now holds `value` for `ttl` ms. */
  function SetIfAbsent(entries: Entries, key: string, value: string, ttl: int, now: int): (r: (bool, Entries))
    ensures r.0 <==> !Live(entries, key, now)
    ensures r.0 ==> forall t :: Get(r.1, key, t) == (if t <= now + ttl then Some(value) else None)
    ensures !r.0 ==> r.1 == entries
    ensures forall k, t :: k != key ==> Get(r.1, k, t) == Get(entries, k, t)
  {
    if Live(entries, key, now) then (false, entries) else (true, entries[key := Entry(value, now + ttl)])
  }

  /** The release script `if GET key == value then DEL key`: true iff it deleted. */
  function DeleteIfHeld(entries: Entries, key: string, value: string, now: int): (r: (bool, Entries))
    ensures r.0 <==> Get(entries, key, now) == Some(value)
    ensures r.0 ==> forall t :: Get(r.1, key, t) == None
    ensures !r.0 ==> r.1 == entries
    ensures forall k, t :: k != key ==> Get(r.1, k, t) == Get(entries, k, t)
  {
    if Get(entries, key, now) == Some(value) then (true, entries - {key}) else (false, entries)
  }

  /** The renewal script `if GET key == value then PEXPIRE key ttl`: true iff it extended the lease. */
  function ExpireIfHeld(entries: Entries, key: string, value: string, ttl: int, now: int): (r: (bool, Entries))
    ensures r.0 <==> Get(entries, key, now) == Some(value)
    ensures r.0 ==> forall t :: Get(r.1, key, t) == (if t <= now + ttl then Some(value) else None)
    ensures !r.0 ==> r.1 == entries
    ensures forall k, t :: k != key ==> Get(r.1, k, t) == Get(entries, k, t)
  {
    if Get(entries, key, now) == Some(value) then (true, entries[key := Entry(value, now + ttl)])
    else (false, entries)
  }

  class Store {
    var entries: Entries

    constructor (entries: Entries)
      ensures this.entries == entries
    {
      this.entries := entries;
    }

    method SetNxPx(key: string, value: string, ttl: int, now: int) returns (ok: bool)
      modifies this
      ensures (ok, entries) == SetIfAbsent(old(entries), key, value, ttl, now)
    {
      if key in entries && now <= entries[key].expiresAt {
        ok := false;
      } else {
        entries := entries[key := Entry(value, now + ttl)];
        ok := true;
      }
    }

    method EvalDeleteIfHeld(key: string, value: string, now: int) returns (ok: bool)
      modifies this
      ensures (ok, entries) == DeleteIfHeld(old(entries), key, value, now)
    {
      ok := Get(entries, key, now) == Some(value);
      if ok {
        entries := entries - {key};
      }
    }

    method EvalExpireIfHeld(key: string, value: string, ttl: int, now: int) returns (ok: bool)
      modifies this
      ensures (ok, entries) == ExpireIfHeld(old(entries), key, value, ttl, now)
    {
      ok := Get(entries, key, now) == Some(value);
      if ok {
        entries := entries[key := Entry(value, now + ttl)];
      }
    }
  }
}
