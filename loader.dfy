/**
 * The cache-aware loader of main.js (`LoaderService`).
 *
 * `load(url)` first asks the cache; a truthy cached value is handed to the
 * success callback at once. Otherwise one GET is sent, and when it completes
 * a 200 response is stored in the cache and handed to the success callback,
 * while any other status goes to the error callback and leaves the cache
 * alone. The request is not performed here: its completion is an `Outcome`
 * value, and the time on the clock at completion is `doneAt`.
 *
 * The source installs the completion handler as both `onload` and
 * `onreadystatechange`, so a browser may run it twice at completion; this
 * model runs it once, for a single completion event.
 */
module Loader {
  import opened Wrappers
  import opened Cache

  /** What the request reports to its handler: `readyState`, `status`, `responseText`. */
  datatype Outcome = Outcome(readyState: int, status: int, responseText: string)

  /** Which of the caller's callbacks are functions (`typeof ... === 'function'`). */
  datatype Handlers = Handlers(onSuccess: bool, onError: bool)

  /** What the caller observes of one `load`. */
  datatype Signal =
    | Succeeded(text: string) // onSuccess(text) was called
    | Failed                  // onError() was called
    | Silent                  // no callback ran
    | Threw                   // a cache hit called a missing onSuccess: a TypeError leaves `load`

  /** The effect of one `load`: whether a request was sent, the signal, and the bucket afterwards. */
  datatype LoadStep = LoadStep(sent: bool, signal: Signal, bucket: Bucket)

  /** `if (value)` on a retrieved value: present and not the empty string. */
  predicate IsHit(cached: Option<string>)
    ensures IsHit(cached) ==> cached.Some?
    ensures IsHit(cached) <==> cached.Some? && |cached.value| > 0
  {
    cached.Some? && cached.value != ""
  }

  /** The request completed (`readyState === 4`) with `status === 200`. */
  predicate CompletedOk(o: Outcome)
    ensures CompletedOk(o) ==> o.readyState == 4
    ensures CompletedOk(o) <==> o.readyState == 4 && o.status == 200
  {
    o.readyState == 4 && o.status == 200
  }

  /**
   * `load(url, onSuccess, onError)` on a cache whose slot holds `b` and whose
   * duration is `duration`, looked up at `now`, with the request (if one is
   * sent) completing as `outcome` at `doneAt`.
   */
  function LoadSpec(b: Bucket, duration: int, url: string, now: int,
                    outcome: Outcome, doneAt: int, h: Handlers): (r: LoadStep)
    // a request is sent exactly when the cache has no truthy value for url
    ensures r.sent <==> !IsHit(Lookup(b, url, now))
    // without a request, the cached value is delivered and nothing is written
    ensures !r.sent ==> r.bucket == b && r.signal != Failed &&
                        (h.onSuccess ==> r.signal == Succeeded(b[url].value))
    // the bucket changes only by storing the 200 response under url
    ensures r.bucket == (if r.sent && CompletedOk(outcome)
                         then Store(b, url, outcome.responseText, doneAt, duration) else b)
    // a success after a request carries the response text of a 200
    ensures r.sent && r.signal.Succeeded? ==> CompletedOk(outcome) && r.signal.text == outcome.responseText
    // the error callback runs only for a completed non-200 request, and then the bucket is untouched
    ensures r.signal == Failed <==> r.sent && h.onError && outcome.readyState == 4 && outcome.status != 200
    ensures r.signal == Failed ==> r.bucket == b
    // a hit with no success handler calls `undefined`, which throws
    ensures !r.sent && !h.onSuccess ==> r.signal == Threw
    // a completed request whose callback is not a function signals nothing
    ensures (r.sent && outcome.readyState == 4 &&
             (if outcome.status == 200 then !h.onSuccess else !h.onError)) ==> r.signal == Silent
    // before readyState 4 nothing happens
    ensures r.sent && outcome.readyState != 4 ==> r.signal == Silent && r.bucket == b
  {
    var cached := Lookup(b, url, now);
    if IsHit(cached) then
      LoadStep(false, if h.onSuccess then Succeeded(cached.value) else Threw, b)
    else if outcome.readyState != 4 then
      LoadStep(true, Silent, b)
    else if outcome.status == 200 then
      LoadStep(true, if h.onSuccess then Succeeded(outcome.responseText) else Silent,
               Store(b, url, outcome.responseText, doneAt, duration))
    else
      LoadStep(true, if h.onError then Failed else Silent, b)
  }

  /** Cache precedence: a fresh, non-empty entry is served with no request and without extending its expiry. */
  lemma LoadHitServesCache(b: Bucket, duration: int, url: string, now: int,
                           outcome: Outcome, doneAt: int, h: Handlers)
    requires url in b && IsFresh(b[url], now) && b[url].value != ""
    requires h.onSuccess
    ensures var r := LoadSpec(b, duration, url, now, outcome, doneAt, h);
      !r.sent && r.signal == Succeeded(b[url].value) &&
      r.bucket == b && r.bucket[url].expireAt == b[url].expireAt
  {
  }

  /** A cached empty string is falsy, so it counts as a miss and a request is sent. */
  lemma LoadEmptyValueIsMiss(b: Bucket, duration: int, url: string, now: int,
                             outcome: Outcome, doneAt: int, h: Handlers)
    requires url in b && b[url].value == ""
    ensures LoadSpec(b, duration, url, now, outcome, doneAt, h).sent
  {
  }

  /**
   * Miss then populate: after a 200, the response is delivered and a retrieve
   * of url returns it at every time before `doneAt + duration`.
   */
  lemma LoadMissPopulates(b: Bucket, duration: int, url: string, now: int,
                          outcome: Outcome, doneAt: int, h: Handlers, later: int)
    requires !IsHit(Lookup(b, url, now))
    requires CompletedOk(outcome) && h.onSuccess
    requires later < doneAt + duration
    ensures var r := LoadSpec(b, duration, url, now, outcome, doneAt, h);
      r.sent && r.signal == Succeeded(outcome.responseText) &&
      Lookup(r.bucket, url, later) == Some(outcome.responseText)
  {
  }

  /** No negative caching: a failed load leaves every retrieve answering as before. */
  lemma LoadFailureLeavesCache(b: Bucket, duration: int, url: string, now: int,
                               outcome: Outcome, doneAt: int, h: Handlers, key: string, at: int)
    requires !IsHit(Lookup(b, url, now))
    requires outcome.readyState == 4 && outcome.status != 200 && h.onError
    ensures var r := LoadSpec(b, duration, url, now, outcome, doneAt, h);
      r.signal == Failed && Lookup(r.bucket, key, at) == Lookup(b, key, at)
  {
  }

  /**
   * Repeated loads avoid the network: after a load that fetched a non-empty
   * text, a second load of the same url before that text expires sends no
   * request and delivers the same text, whatever the transport would report.
   */
  lemma SecondLoadIsServedFromCache(b: Bucket, duration: int, url: string, now: int,
                                    outcome: Outcome, doneAt: int, h: Handlers,
                                    now2: int, outcome2: Outcome, doneAt2: int)
    requires !IsHit(Lookup(b, url, now))
    requires CompletedOk(outcome) && outcome.responseText != ""
    requires now2 < doneAt + duration
    requires h.onSuccess
    ensures var r1 := LoadSpec(b, duration, url, now, outcome, doneAt, h);
      var r2 := LoadSpec(r1.bucket, duration, url, now2, outcome2, doneAt2, h);
      !r2.sent && r2.signal == r1.signal == Succeeded(outcome.responseText) && r2.bucket == r1.bucket
  {
  }

  /** `LoaderService`: the loader and the cache it owns. */
  class LoaderService {
    const cache: CacheService

    /** `new LoaderService()`: a cache on the slot "test:files" with the default duration. */
    constructor (storage: LocalStorage)
      ensures fresh(cache)
      ensures cache.storage == storage && cache.target == "test:files"
      ensures cache.duration == ExpireTimeDefault
    {
      cache := new CacheService(storage, "test:files", None);
    }

    /**
     * `load(url, onSuccess, onError)` at time `now`, the request (if sent)
     * completing as `outcome` at `doneAt`. It does what `LoadSpec` says, and
     * touches the storage only by writing this cache's slot after a 200.
     */
    method Load(url: string, now: int, outcome: Outcome, doneAt: int, h: Handlers)
      returns (sent: bool, signal: Signal)
      modifies cache.storage
      ensures var step := LoadSpec(old(cache.Parse()), cache.duration, url, now, outcome, doneAt, h);
        sent == step.sent && signal == step.signal && cache.Parse() == step.bucket
      ensures cache.storage.items ==
        if sent && CompletedOk(outcome)
        then old(cache.storage.items)[cache.target := cache.Parse()]
        else old(cache.storage.items)
    {
      var value := cache.Retrieve(url, now);
      if value.Some? && value.value != "" {
        sent := false;
        signal := if h.onSuccess then Succeeded(value.value) else Threw;
        return;
      }
      sent := true;
      signal := Silent;
      if outcome.readyState == 4 {
        if outcome.status == 200 {
          cache.Put(url, outcome.responseText, doneAt);
          if h.onSuccess {
            signal := Succeeded(outcome.responseText);
          }
        } else if h.onError {
          signal := Failed;
        }
      }
    }
  }
}
