/**
 * The expiring key/value cache of main.js (`CacheService`).
 *
 * A cache owns one slot of the browser's persistent key/value storage, named
 * by its `target`. The slot holds a whole bucket: a map from key to an entry
 * carrying the stored value and its absolute expiry time in milliseconds.
 * The clock is not read here: every operation takes the current time `now`.
 */
module Cache {
  import opened Wrappers

  /** One cached value and the absolute time (ms) at which it stops being fresh. */
  datatype Entry = Entry(expireAt: int, value: string)

  /** The mapping persisted, as one blob, in the cache's storage slot. */
  type Bucket = map<string, Entry>

  /** `CacheService.EXPIRE_TIME_DEFAULT`: a quarter of a minute, in milliseconds. */
  const ExpireTimeDefault: int := 15000

  /**
   * The constructor's `duration || EXPIRE_TIME_DEFAULT`: an omitted duration
   * (`None`) and the falsy duration 0 both fall back to the default; any other
   * number is kept as given.
   */
  function EffectiveDuration(requested: Option<int>): (d: int)
    ensures d != 0
    ensures requested.None? || requested.value == 0 ==> d == ExpireTimeDefault
    ensures requested.Some? && requested.value != 0 ==> d == requested.value
    ensures requested.None? || requested.value >= 0 ==> d > 0
  {
    match requested
    case None => ExpireTimeDefault
    case Some(n) => if n == 0 then ExpireTimeDefault else n
  }

  /**
   * The one freshness decision: an entry is fresh at `now` exactly when
   * `expireAt - now > 0`, and expired from `expireAt` on.
   */
  predicate IsFresh(e: Entry, now: int)
    ensures IsFresh(e, now) <==> now < e.expireAt
    ensures !IsFresh(e, now) <==> e.expireAt <= now
  {
    e.expireAt - now > 0
  }

  /**
   * What `put` does to the bucket it has read: the entry for `key` becomes
   * (`now + duration`, `value`), replacing any earlier one, and every other
   * key keeps the entry it had.
   */
  function Store(b: Bucket, key: string, value: string, now: int, duration: int): (r: Bucket)
    ensures key in r && r[key] == Entry(now + duration, value)
    ensures r[key].expireAt - now == duration
    ensures r.Keys == b.Keys + {key}
    ensures forall k :: k in b && k != key ==> r[k] == b[k]
  {
    b[key := Entry(now + duration, value)]
  }

  /**
   * What `retrieve` answers for a bucket, with the intended comparison: the
   * stored value when the key has an entry that is still fresh at `now`, and
   * absent when there is no entry or it has expired.
   */
  function Lookup(b: Bucket, key: string, now: int): (r: Option<string>)
    ensures r.Some? <==> key in b && IsFresh(b[key], now)
    ensures r.Some? ==> r.value == b[key].value
  {
    if key !in b || !IsFresh(b[key], now) then None else Some(b[key].value)
  }

  /**
   * `retrieve` as main.js:67 writes it: it answers absent when the entry is
   * still fresh and hands out the value only once it has expired. It differs
   * from `Lookup` only in the missing negation of `IsFresh`.
   */
  function LookupAsWritten(b: Bucket, key: string, now: int): (r: Option<string>)
    ensures r.Some? <==> key in b && !IsFresh(b[key], now)
    ensures r.Some? ==> r.value == b[key].value
  {
    if key !in b || IsFresh(b[key], now) then None else Some(b[key].value)
  }

  /** For a present entry the two readings of main.js:67 always disagree. */
  lemma AsWrittenIsInverted(b: Bucket, key: string, now: int)
    requires key in b
    ensures LookupAsWritten(b, key, now).Some? <==> Lookup(b, key, now).None?
    ensures Lookup(b, key, now).Some? || LookupAsWritten(b, key, now).Some?
  {
  }

  /**
   * The input that shows the inverted comparison: with a duration of 1000 ms,
   * put "hello" under "a.txt" at time 0; the code as written misses at 500
   * (while the entry is fresh) and hits at 1500 (after it has expired).
   */
  lemma AsWrittenMissesFreshEntry()
    ensures LookupAsWritten(Store(map[], "a.txt", "hello", 0, 1000), "a.txt", 500) == None
    ensures LookupAsWritten(Store(map[], "a.txt", "hello", 0, 1000), "a.txt", 1500) == Some("hello")
  {
  }

  /** The same scenario under the intended comparison: hit at 500, miss at 1500. */
  lemma FreshnessScenario()
    ensures Lookup(Store(map[], "a.txt", "hello", 0, 1000), "a.txt", 500) == Some("hello")
    ensures Lookup(Store(map[], "a.txt", "hello", 0, 1000), "a.txt", 1500) == None
  {
  }

  /** A value put at `now` is retrieved, unchanged, at every time before `now + duration`. */
  lemma PutThenLookupFresh(b: Bucket, key: string, value: string, now: int, duration: int, later: int)
    requires later < now + duration
    ensures Lookup(Store(b, key, value, now, duration), key, later) == Some(value)
  {
  }

  /** From `now + duration` on, the entry just put is absent. */
  lemma PutThenLookupExpired(b: Bucket, key: string, value: string, now: int, duration: int, later: int)
    requires later >= now + duration
    ensures Lookup(Store(b, key, value, now, duration), key, later) == None
  {
  }

  /** A put to one key never changes what another key retrieves. */
  lemma PutLeavesOtherKeys(b: Bucket, key: string, value: string, now: int, duration: int, other: string, at: int)
    requires other != key
    ensures Lookup(Store(b, key, value, now, duration), other, at) == Lookup(b, other, at)
  {
  }

  /** Overwrite semantics: a second put to the same key replaces the first completely. */
  lemma PutOverwrites(b: Bucket, key: string, v1: string, t1: int, v2: string, t2: int, duration: int)
    ensures Store(Store(b, key, v1, t1, duration), key, v2, t2, duration) == Store(b, key, v2, t2, duration)
  {
  }

  /** Expiry is permanent: once absent at `t1`, a key stays absent at every later time. */
  lemma ExpiryIsPermanent(b: Bucket, key: string, t1: int, t2: int)
    requires t1 <= t2
    requires Lookup(b, key, t1) == None
    ensures Lookup(b, key, t2) == None
  {
  }

  /** One call of `put`: the key, the value and the time the clock showed. */
  datatype Write = Write(key: string, value: string, at: int)

  /** The bucket after the puts in `ws`, applied in order, starting from `b`. */
  function PutAll(b: Bucket, ws: seq<Write>, duration: int): (r: Bucket)
    decreases |ws|
  {
    if ws == [] then b
    else
      var last := ws[|ws| - 1];
      Store(PutAll(b, ws[..|ws| - 1], duration), last.key, last.value, last.at, duration)
  }

  /** The last put to `key` in `ws`, if there is one. */
  function LastWrite(ws: seq<Write>, key: string): (r: Option<Write>)
    ensures r.Some? ==> r.value in ws && r.value.key == key
    ensures r.None? <==> forall w :: w in ws ==> w.key != key
    decreases |ws|
  {
    if ws == [] then None
    else if ws[|ws| - 1].key == key then Some(ws[|ws| - 1])
    else LastWrite(ws[..|ws| - 1], key)
  }

  /**
   * At most one entry per key, and insertion overwrites: after any sequence of
   * puts, a key holds exactly the entry of its last put (expiring `duration`
   * after that put), or, if it was never put, whatever the bucket held before.
   */
  lemma {:induction false} LastPutWins(b: Bucket, ws: seq<Write>, duration: int, key: string)
    ensures key in PutAll(b, ws, duration) <==> key in b || LastWrite(ws, key).Some?
    ensures LastWrite(ws, key).Some? ==>
      var w := LastWrite(ws, key).value;
      PutAll(b, ws, duration)[key] == Entry(w.at + duration, w.value)
    ensures LastWrite(ws, key).None? && key in b ==> PutAll(b, ws, duration)[key] == b[key]
    decreases |ws|
  {
    if ws != [] {
      LastPutWins(b, ws[..|ws| - 1], duration, key);
    }
  }

  /** A sequence of puts never removes a key: the keys afterwards are the old keys plus every key put. */
  lemma {:induction false} PutAllKeepsKeys(b: Bucket, ws: seq<Write>, duration: int)
    ensures PutAll(b, ws, duration).Keys == b.Keys + set w | w in ws :: w.key
    decreases |ws|
  {
    if ws != [] {
      PutAllKeepsKeys(b, ws[..|ws| - 1], duration);
    }
  }

  /**
   * So a retrieve after a sequence of puts returns the last value put to the
   * key for as long as that last put is fresh.
   */
  lemma LastPutIsRetrieved(b: Bucket, ws: seq<Write>, duration: int, key: string, now: int)
    requires LastWrite(ws, key).Some?
    requires now < LastWrite(ws, key).value.at + duration
    ensures Lookup(PutAll(b, ws, duration), key, now) == Some(LastWrite(ws, key).value.value)
  {
    LastPutWins(b, ws, duration, key);
  }

  /**
   * The host's persistent key/value storage (`localStorage`), each slot
   * already decoded into a bucket. A name with no slot is an empty storage
   * entry; the storage outlives any cache built on it.
   */
  class LocalStorage {
    var items: map<string, Bucket>

    constructor (items: map<string, Bucket>)
      ensures this.items == items
    {
      this.items := items;
    }
  }

  /** `CacheService`: a time-to-live cache kept in one slot of `storage`. */
  class CacheService {
    const storage: LocalStorage
    const target: string
    const duration: int

    /** `new CacheService(target, duration)`, over the given storage. */
    constructor (storage: LocalStorage, target: string, duration: Option<int>)
      ensures this.storage == storage && this.target == target
      ensures this.duration == EffectiveDuration(duration)
      ensures this.duration != 0
    {
      this.storage := storage;
      this.target := target;
      this.duration := EffectiveDuration(duration);
    }

    /** `_parse`: the bucket in this cache's slot, or `{}` when the slot is empty. */
    function Parse(): (r: Bucket)
      reads storage
      ensures target !in storage.items ==> r == map[]
      ensures target in storage.items ==> r == storage.items[target]
    {
      if target in storage.items then storage.items[target] else map[]
    }

    /**
     * `put`: read the whole bucket, set the entry for `key` to expire
     * `duration` after `now`, and write the bucket back to this cache's slot.
     * No other slot of the storage changes.
     */
    method Put(key: string, value: string, now: int)
      modifies storage
      ensures storage.items == old(storage.items)[target := Store(old(Parse()), key, value, now, duration)]
      ensures Parse() == Store(old(Parse()), key, value, now, duration)
    {
      var cache := Parse();
      cache := cache[key := Entry(now + duration, value)];
      storage.items := storage.items[target := cache];
    }

    /**
     * `retrieve`, with the intended comparison. The expired or missing entry
     * is deleted only from the locally read copy, which is never written back,
     * so the method modifies nothing: the storage is the same afterwards and
     * a repeated call with the same `now` gives the same answer.
     */
    method Retrieve(key: string, now: int) returns (r: Option<string>)
      ensures r == Lookup(Parse(), key, now)
      ensures target !in storage.items ==> r == None
    {
      var cache := Parse();
      if key !in cache || !IsFresh(cache[key], now) {
        cache := cache - {key};
        return None;
      }
      return Some(cache[key].value);
    }
  }

  /** Two retrieves with nothing in between give the same answer. */
  method RetrieveIsRepeatable(c: CacheService, key: string, now: int) returns (r1: Option<string>, r2: Option<string>)
    ensures r1 == r2 == Lookup(c.Parse(), key, now)
  {
    r1 := c.Retrieve(key, now);
    r2 := c.Retrieve(key, now);
  }

  /**
   * The freshness invariant on the object: a value put and then retrieved
   * before `duration` has elapsed comes back unchanged.
   */
  method PutThenRetrieve(c: CacheService, key: string, value: string, now: int, later: int) returns (r: Option<string>)
    requires now <= later < now + c.duration
    modifies c.storage
    ensures r == Some(value)
    ensures c.Parse() == Store(old(c.Parse()), key, value, now, c.duration)
  {
    c.Put(key, value, now);
    r := c.Retrieve(key, later);
  }
}
