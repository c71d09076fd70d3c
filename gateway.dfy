/**
 * The gateway's module-level state (index.js:13, index.js:31-42) as one
 * object whose handlers update it in place, each proved to do exactly what
 * the corresponding function of module Coordinator describes.
 */
module Gateway {
  import opened Wrappers
  import opened Envelope
  import opened Quota
  import opened CacheKeys
  import opened Coordinator

  class GatewayState {
    var counts: Counts                   // originalApiRequestCounts
    var resetTime: int                   // rateLimitResetTime
    var firstRequestTime: Option<int>    // firstRequestTime
    var apiRequestCount: nat             // apiRequestCount
    var cache: map<string, Payload>      // cache

    function View(): Snapshot
      reads this
    {
      Snapshot(counts, resetTime, firstRequestTime, apiRequestCount, cache)
    }

    ghost predicate Valid()
      reads this
    {
      Coordinator.Valid(View())
    }

    /** The module's initialisation, `startTime` being `Date.now()` at load. */
    constructor (startTime: int)
      ensures Valid()
      ensures View() == Initial(startTime)
    {
      counts := ZeroCounts();
      resetTime := startTime + RateLimitWindow;
      firstRequestTime := None;
      apiRequestCount := 0;
      cache := map[];
    }

    /** `resetRateLimit()`, run at time `now`. */
    method ResetRateLimit(now: int)
      modifies this
      ensures Valid()
      ensures View() == Coordinator.ResetRateLimit(old(View()), now)
    {
      apiRequestCount := 0;
      counts := ZeroCounts();
      resetTime := now + RateLimitWindow;
      firstRequestTime := None;
    }

    /** Lines 132-156 and 99-123, after `apiRequestCount++` and the key. */
    method CacheOrFetch(bucket: Bucket, key: string, now: int, fetched: Option<Payload>, iv: IV) returns (response: Response)
      requires Valid()
      modifies this
      ensures Valid()
      ensures Outcome(View(), response) == Serve(old(View()), bucket, key, now, fetched, iv)
    {
      var cachedData := CacheLookup(cache, key);
      if cachedData.Some? {
        return Served(EncryptData(cachedData.value, iv));
      }
      if counts[bucket] >= RateLimit {
        var timeRemaining := resetTime - now;
        if timeRemaining > 0 {
          return Failed(TooManyRequests, RateLimitMessage);
        } else {
          ResetRateLimit(now);
        }
      }
      counts := counts[bucket := counts[bucket] + 1];
      match fetched {
        case None =>
          return Failed(InternalServerError, FetchFailedMessage);
        case Some(data) =>
          cache := cache[key := data];
          return Served(EncryptData(data, iv));
      }
    }

    /** `handleNewsRequest`, as called by the `/telugu/news`, `/telugutwo/news` and `/english/news` routes. */
    method HandleNewsRequest(route: Route, page: Option<string>, now: int, fetched: Option<Payload>, iv: IV)
      returns (response: Response)
      requires Valid()
      modifies this
      ensures Valid()
      ensures Outcome(View(), response) == NewsRequest(old(View()), route, page, now, fetched, iv)
    {
      apiRequestCount := apiRequestCount + 1;
      var cacheKey := NewsKey(Language(route), page);
      response := CacheOrFetch(BucketOf(route), cacheKey, now, fetched, iv);
    }

    /** The `/search` handler. */
    method HandleSearch(language: Option<string>, q: Option<string>, category: Option<string>, page: Option<string>,
                        now: int, fetched: Option<Payload>, iv: IV)
      returns (response: Response)
      requires Valid()
      modifies this
      ensures Valid()
      ensures Outcome(View(), response) == SearchRequest(old(View()), language, q, category, page, now, fetched, iv)
    {
      apiRequestCount := apiRequestCount + 1;
      var cacheKey := SearchKey(SearchLanguage(language), q, category, page);
      response := CacheOrFetch(Search, cacheKey, now, fetched, iv);
    }

    /** The `/latestnewsenglish` handler; `fetched` is what `fetchEnglishNews` returned. */
    method HandleLatestEnglishNews(fetched: Option<Payload>, iv: IV) returns (response: Response)
      requires Valid()
      modifies this
      ensures Valid()
      ensures Outcome(View(), response) == LatestEnglishNews(old(View()), fetched, iv)
    {
      var englishNews := CacheLookup(cache, LatestEnglishKey);
      if englishNews.None? {
        match fetched {
          case None =>
            return Failed(InternalServerError, EnglishFetchFailedMessage);
          case Some(data) =>
            cache := cache[LatestEnglishKey := data];
            englishNews := Some(data);
        }
      }
      response := Served(EncryptData(englishNews.value, iv));
    }

    /** NodeCache dropping an entry whose time-to-live has run out. */
    method Expire(key: string)
      requires Valid()
      modifies this
      ensures Valid()
      ensures View() == Step(old(View()), Coordinator.Expire(key))
    {
      cache := cache - {key};
    }
  }
}
