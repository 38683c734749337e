/**
 * The challenge store of src/routes/auth.js:9-11, a `node-cache` instance with
 * a standard TTL. A record holds the value and an absolute expiry in
 * milliseconds (0 meaning "never"); `set` stamps it `now + stdTTL * 1000`,
 * and `get` checks it lazily, deleting a record whose expiry has passed.
 */
module ChallengeCache {
  import opened Wrappers

  /** A stored record: `node-cache`'s `{ v, t }`. */
  datatype Entry = Entry(value: string, expiresAt: int)

  /** The expiry `set` gives a record when called at `now` (milliseconds). */
  function ExpiryFor(stdTTL: int, now: int): int {
    if stdTTL == 0 then 0 else now + stdTTL * 1000
  }

  /** A record is stale when it has an expiry and that expiry is strictly in the past. */
  predicate Expired(e: Entry, now: int) {
    e.expiresAt != 0 && e.expiresAt < now
  }

  /** What `get(key)` returns at `now`: the value of a record that is not stale. */
  function Lookup(data: map<string, Entry>, key: string, now: int): (r: Option<string>)
    ensures r.Some? <==> key in data && !Expired(data[key], now)
    ensures r.Some? ==> r.value == data[key].value
  {
    if key in data && !Expired(data[key], now) then Some(data[key].value) else None
  }

  /** The records after `get(key)` at `now`: a stale record for `key` is dropped, nothing else moves. */
  function AfterGet(data: map<string, Entry>, key: string, now: int): (data': map<string, Entry>)
    ensures data'.Keys <= data.Keys
    ensures forall k :: k in data' ==> data'[k] == data[k]
    ensures forall k :: k in data && k != key ==> k in data'
    ensures key in data' <==> key in data && !Expired(data[key], now)
  {
    if key in data && Expired(data[key], now) then data - {key} else data
  }

  class TtlCache {
    var data: map<string, Entry>
    const stdTTL: int

    constructor (stdTTL: int)
      ensures this.stdTTL == stdTTL && data == map[]
    {
      this.stdTTL := stdTTL;
      data := map[];
    }

    /** `set(key, value)`: replaces any record for `key` with one expiring `stdTTL` seconds from `now`. */
    method Set(key: string, value: string, now: int)
      modifies this
      ensures data == old(data)[key := Entry(value, ExpiryFor(stdTTL, now))]
    {
      var livetime := 0;
      if stdTTL != 0 {
        livetime := now + stdTTL * 1000;
      }
      data := data[key := Entry(value, livetime)];
    }

    /** `get(key)`: the live value, if any; a stale record is deleted on the way. */
    method Get(key: string, now: int) returns (value: Option<string>)
      modifies this
      ensures value == Lookup(old(data), key, now)
      ensures data == AfterGet(old(data), key, now)
    {
      if key !in data {
        return None;
      }
      var record := data[key];
      if record.expiresAt != 0 && record.expiresAt < now {
        data := data - {key};
        return None;
      }
      return Some(record.value);
    }

    /** `del(key)`: removes the record for `key`; nothing happens if there is none. */
    method Del(key: string)
      modifies this
      ensures data == old(data) - {key}
    {
      data := data - {key};
    }
  }

  // ---------------------------------------------------------------------------
  // Properties of the store
  // ---------------------------------------------------------------------------

  /**
   * With a non-zero TTL, a value set at `t0` is read back at `t1` exactly
   * while `t1 <= t0 + stdTTL * 1000`, and is gone after; an expiry that lands
   * on 0 means "never", so such a value is read back at every time.
   */
  lemma LookupAfterSet(data: map<string, Entry>, key: string, value: string, stdTTL: int, t0: int, t1: int)
    requires stdTTL != 0
    ensures Lookup(data[key := Entry(value, ExpiryFor(stdTTL, t0))], key, t1)
         == if t0 + stdTTL * 1000 == 0 || t1 <= t0 + stdTTL * 1000 then Some(value) else None
  {
  }

  /** Setting one key leaves what every other key reads unchanged. */
  lemma SetLeavesOtherKeys(data: map<string, Entry>, key: string, e: Entry, other: string, now: int)
    requires other != key
    ensures Lookup(data[key := e], other, now) == Lookup(data, other, now)
  {
  }

  /** Staleness is permanent: a record stale at `now` is stale at every later time. */
  lemma ExpiredStaysExpired(e: Entry, now: int, later: int)
    requires Expired(e, now) && now <= later
    ensures Expired(e, later)
  {
  }

  /**
   * The deletion `get` performs is invisible: from `now` on, every key reads
   * the same from the records after the `get` as from those before it.
   */
  lemma AfterGetInvisible(data: map<string, Entry>, key: string, now: int, k: string, later: int)
    requires now <= later
    ensures Lookup(AfterGet(data, key, now), k, later) == Lookup(data, k, later)
  {
  }

  /** Deleting is idempotent, and after it the key reads as absent. */
  lemma DeleteIdempotent(data: map<string, Entry>, key: string, now: int)
    ensures (data - {key}) - {key} == data - {key}
    ensures Lookup(data - {key}, key, now) == None
  {
  }
}
