# Expiring cache and cache-aware loader of `main.js`

This project models the two services in `main.js` that hold logic and proves properties about them.

- `CacheService` is a time-to-live key/value cache. It keeps one slot of the browser's persistent storage, whose name is its `target`. The slot holds a whole bucket: a map from key to `{expireAt, value}`. `put` reads the bucket, sets the key's entry to expire `duration` ms after the current time, and writes the bucket back. `retrieve` reads the bucket and answers with the value or with `undefined`.
- `LoaderService.load` looks a URL up in its cache and hands a truthy cached value to `onSuccess`. Otherwise it sends one GET. When the request completes (`readyState` 4), a 200 response is stored with `put` and then passed to `onSuccess`. Any other status calls `onError` and leaves the cache as it was.

The Dafny files are:

- `wrappers.dfy`: module `Wrappers`, an `Option` type. `None` plays the role of `undefined`.
- `cache.dfy`: module `Cache`. It holds the `Entry` and `Bucket` values and the constant `ExpireTimeDefault` (15000 ms, `.25 * 60 * 1000`). It has a single freshness predicate, `IsFresh` (`expireAt - now > 0`), and the pure functions `Store` (what `put` does to a bucket) and `Lookup` (what `retrieve` answers). It also has two classes:
  - `LocalStorage`: the host storage, one decoded bucket per slot name.
  - `CacheService`: `Put` and `Retrieve` are methods proved against `Store` and `Lookup`.
- `loader.dfy`: module `Loader`. `Outcome(readyState, status, responseText)` stands for the finished request. The pure function `LoadSpec` states the effect of one `load`. The class `LoaderService` has a `Load` method proved against `LoadSpec`.

Nothing real is touched. The clock becomes parameters: `now` is the time of the retrieve, and `doneAt` is the time at which the completion handler runs its `put`. The network becomes the `Outcome` parameter. `localStorage` becomes the `LocalStorage` object, whose slots already hold decoded buckets.

The model keeps these behaviours of the code:

- The code never writes back the bucket after `retrieve` removes an entry. The removal only touches the parsed local copy (main.js:68). So `Retrieve` modifies nothing, and an expired entry stays in storage.
- The loader's cache slot is named `"test:files"` (main.js:80).
- On a cache hit the code calls `onSuccess` without checking that it is a function (main.js:88). The model's `Threw` signal covers a hit with no success handler.
- A duration passed to the constructor is kept unless it is falsy (main.js:43). So a negative duration is kept as given, and only `None` and 0 fall back to the default.

The comparison at main.js:67 is modelled both as written (`LookupAsWritten`) and as intended (`Lookup`); the rest of the model uses `Lookup`. See "## Findings".

## Model

| member | source | states |
|---|---|---|
| `Cache.EffectiveDuration` | main.js:41-44 | the duration is never 0; with no duration or 0 it is the default 15000 ms; any other given number is kept; for no duration or a non-negative one it is positive |
| `Cache.IsFresh` | main.js:67 | the single freshness decision: an entry is fresh at `now` iff `now < expireAt`, and expired iff `expireAt <= now` |
| `Cache.Store` | main.js:52-60 | after a put, the key's entry is `(now + duration, value)`; `expireAt - writeTime` equals the duration; the keys are the old keys plus this one; every other key keeps its entry |
| `Cache.Lookup` | main.js:63-73 | intended retrieve: returns a value exactly when the key has an entry that is fresh at `now`, and then returns the stored value unchanged; missing or expired entries give absent |
| `Cache.LookupAsWritten` | main.js:67 | retrieve as written: returns a value exactly when the key has an entry that is NOT fresh, i.e. the freshness test is inverted |
| `Cache.AsWrittenIsInverted` | main.js:67 | for every present entry, the as-written retrieve hits exactly when the intended one misses |
| `Cache.AsWrittenMissesFreshEntry` | main.js:67 | with duration 1000 ms and "hello" put under "a.txt" at 0, the code as written misses at 500 and returns "hello" at 1500 |
| `Cache.FreshnessScenario` | main.js:52-73 | the same scenario with the intended comparison: "hello" at 500, absent at 1500 |
| `Cache.PutThenLookupFresh` | main.js:52-73 | a value put at `now` is retrieved unchanged at every time before `now + duration` |
| `Cache.PutThenLookupExpired` | main.js:56 | from `now + duration` on, the entry just put is absent: the expiry boundary is exclusive |
| `Cache.PutLeavesOtherKeys` | main.js:55-58 | a put to one key does not change what any other key retrieves, at any time |
| `Cache.PutOverwrites` | main.js:55-58 | a second put to the same key replaces the first; the expiry comes from the second call's time |
| `Cache.ExpiryIsPermanent` | main.js:67-70 | a key absent at some time stays absent at every later time if nothing is put |
| `Cache.PutAllKeepsKeys` | main.js:52-60 | a sequence of puts never removes a key: the keys afterwards are the old keys plus every key put |
| `Cache.LastWrite` | main.js:52-60 | the last put to a key, when there is one, is a put of that key in the sequence; there is none iff no put names the key |
| `Cache.LastPutWins` | main.js:52-60 | after any sequence of puts, a key holds exactly the entry of its last put, or its earlier entry if it was never put; at most one entry per key |
| `Cache.LastPutIsRetrieved` | main.js:52-73 | after any sequence of puts, retrieve returns the key's last put value while that put is fresh |
| `Cache.LocalStorage.constructor` | main.js:47-60 | the host storage (`localStorage`, read at main.js:47 and written at main.js:60) starts with exactly the given slots |
| `Cache.CacheService.constructor` | main.js:41-44 | keeps the storage and the target, and sets the duration to the given one, or to the default when that is omitted or 0 (never 0) |
| `Cache.CacheService.Parse` | main.js:46-50 | `_parse`: an empty slot reads as the empty bucket `{}`; otherwise the bucket stored in the slot |
| `Cache.CacheService.Put` | main.js:52-61 | this cache's slot becomes `Store` of the parsed old bucket (an empty slot parses as `{}`); no other slot changes |
| `Cache.CacheService.Retrieve` | main.js:63-73 | the answer is `Lookup` of the parsed bucket; an empty slot answers absent; nothing is modified, because the delete touches only the local copy |
| `Cache.RetrieveIsRepeatable` | main.js:63-73 | two retrieves of the same key at the same time agree, since retrieve changes no state |
| `Cache.PutThenRetrieve` | main.js:52-73 | on the object: put then retrieve before the duration has elapsed returns the value put |
| `Loader.IsHit` | main.js:87 | `if (value)`: a retrieved value is a hit iff it is present and non-empty |
| `Loader.CompletedOk` | main.js:94-95 | the request succeeded iff `readyState` is 4 and `status` is 200 |
| `Loader.LoadSpec` | main.js:83-109 | a request is sent iff the cache has no truthy value; with no request the cached value is delivered and nothing is written; the bucket changes only by storing a 200 response under the url; a success after a request carries a 200's text; onError runs iff a request completed with a non-200 and a handler exists, and then the bucket is untouched; a hit with no success handler throws; a completed request whose required callback is not a function signals nothing; before readyState 4 nothing happens |
| `Loader.LoadHitServesCache` | main.js:84-89 | with a fresh non-empty entry: no request, `onSuccess` gets the cached value, and the bucket and its expireAt are unchanged |
| `Loader.LoadEmptyValueIsMiss` | main.js:87 | a cached empty string is falsy, so load sends a request |
| `Loader.LoadMissPopulates` | main.js:94-100 | on a miss with a 200: `onSuccess(responseText)`, and retrieve of the url returns that text before `doneAt + duration` |
| `Loader.LoadFailureLeavesCache` | main.js:101-104 | on a miss with a completed non-200: `onError` fires and every key retrieves exactly as before (no negative caching) |
| `Loader.SecondLoadIsServedFromCache` | main.js:83-100 | after a load that fetched a non-empty text, a second load of that url before expiry sends no request and delivers the same text |
| `Loader.LoaderService.constructor` | main.js:79-81 | the loader owns a fresh cache on slot "test:files" with the default duration |
| `Loader.LoaderService.Load` | main.js:83-109 | sent, signal and the new bucket are those of `LoadSpec`; storage changes only in the cache's own slot, and only after a completed 200 |

## Findings

| source | as written | input that shows it | evidently intended | confidence | as-written member | corrected member |
|---|---|---|---|---|---|---|
| main.js:67 | `retrieve` returns `undefined` when `expireAt - now > 0`, that is, while the entry is fresh, and returns the value only after it has expired | duration 1000 ms, `put("a.txt", "hello")` at 0: `retrieve("a.txt")` at 500 gives `undefined`, and at 1500 gives `"hello"` | return the value iff the entry is present and `expireAt - now > 0`, otherwise absent | not executed | `Cache.AsWrittenMissesFreshEntry` | `Cache.PutThenLookupFresh` |

## Left out

- `extend` and `Extendable` (main.js:1-38): prototype-inheritance plumbing. The model uses plain classes.
- `ParserService` (main.js:112-138) and `App` (main.js:140-176): these are the extension dispatch (`eval`, `JSON.parse`, a global callback) and the DOM wiring. Neither holds cache or loader logic.
- `XMLHttpRequest`: the request becomes one `Outcome` value. The source installs the handler as both `onload` and `onreadystatechange`, so it may run twice at completion. The model runs it once.
- JSON encoding of the bucket: `JSON.stringify` and `JSON.parse` are replaced by decoded buckets in storage. The model therefore has no slot holding an empty string, which the source would treat like a missing one. It also has no malformed slot; the source's `JSON.parse` would throw on one because there is no `try`.
- `Date.getTime()` and `parseInt`: times are integer parameters and `expireAt` is an integer. The model does not capture JavaScript's floating-point numbers or `parseInt` applied to non-integral values.
- `Cache.EffectiveDuration`: covers only an omitted duration or an integer one. It does not model other falsy values (`NaN`, `null`) or non-numeric durations.
- The key `"__proto__"`: the model treats every key as an ordinary map key. In the source, `cache[key] = ...` at main.js:55 with this key runs the prototype setter instead of creating an own property, and `JSON.stringify` at main.js:60 then drops it, so the put saves nothing. A later `retrieve("__proto__")` at main.js:65 reads `Object.prototype` and returns `undefined`. `Store`, `CacheService.Put` and the lemmas built on them (`PutThenLookupFresh`, `LoadMissPopulates`, `SecondLoadIsServedFromCache`) therefore promise, for this one key, a stored value that the source never keeps.
- Storage write failures: `localStorage.setItem` at main.js:60 can throw (quota exceeded, storage disabled). In the completion handler that exception, raised inside `put` at main.js:96, ends the handler before `onSuccess` at main.js:99 runs. `CacheService.Put` and `LoaderService.Load` never fail, so the model does not capture a 200 response that neither reaches the cache nor reaches `onSuccess`.
- Overlapping asynchronous `load` calls and storage races between them: concurrency is not modelled.
