# News gateway request arbitration, in Dafny

This project models the request-arbitration layer of the news backend in
`index.js`. That layer sits in front of the upstream news APIs and does four things:

- **Cache keys.** It builds a key for each request. News keys are
  `news-<lang>[-page-<n>]` and search keys are `search-<lang>-<q>-<cat>[-page-<n>]`.
  The `/latestnewsenglish` route uses the fixed key `englishNews`.
- **Cache lookup.** It looks the key up in a NodeCache instance. A present and
  truthy value is served at once.
- **Quota gate.** On a miss, it passes the request through a gate. There are
  three counters (`telugu`, `english`, `search`), each limited to 30 calls. All
  three share one reset time that is checked lazily. The gate either refuses the
  request with 429 or charges the bucket.
- **Upstream call.** After the gate, it calls the upstream API. On success the
  result is cached under the same key and sent back in an `{iv, encryptedData}`
  envelope (error responses are plain JSON). On failure the response is 500.

The `/rate-limit` route reports the three counters.

Modules:

- `Wrappers` (wrappers.dfy): `Option`.
- `Envelope` (envelope.dfy): the cached JSON values with JavaScript truthiness,
  the IV and a symbolic envelope.
- `CacheKeys` (cache_keys.dfy): the key templates and what makes keys distinct.
- `Quota` (quota.dfy): buckets, `rateLimit = 30`, `rateLimitWindow = 900000` ms,
  and the counters map.
- `Coordinator` (coordinator.dfy): each handler as one atomic step on a
  `Snapshot` of the module-level state. `now` (`Date.now()`), the upstream
  result and the IV are parameters. This module also runs sequences of such
  steps, with NodeCache expiry as an event, and holds the lemmas.
- `RateLimitStatus` (rate_limit_status.dfy): the `/rate-limit` report.
- `Gateway` (gateway.dfy): class `GatewayState`. It holds the fields the source
  mutates (`counts`, `resetTime`, `firstRequestTime`, `apiRequestCount`,
  `cache`). Each imperative handler is proved to leave exactly the state and
  response that the matching `Coordinator` function describes. It also keeps the
  invariant `Valid()`: every bucket is at most 30 and `firstRequestTime` is null.

Where the code differs from a per-bucket fixed-window limiter, the model follows
the code:

- **One shared window.** All buckets use a single reset time, and `resetRateLimit`
  clears all of them. It also sets `apiRequestCount` back to 0 (index.js:46).
- **The reset time is checked only when the requested bucket is full.** A stale
  reset time therefore lets one bucket make 60 upstream calls in the same
  millisecond. `StaleWindowAllowsDoubleBurst` proves this.
- **`firstRequestTime` is never set.** So `/rate-limit` always reports the full
  window as remaining.
- **A falsy cached value is a miss.** A cached `null`, `0`, `false` or `""` is
  fetched again and charged again.
- **Search keys do not identify a request.** A missing `q` prints as `undefined`,
  and a `-page-` inside a category can imitate a page. `SearchKeyCollisions`
  shows both.

## Model

| member | source | states |
|---|---|---|
| `CacheKeys.NewsKey` | index.js:131 | A news key starts with `news-` followed by the language. It is longer than that exactly when a non-empty page is given. |
| `CacheKeys.SearchBase` | index.js:98 | The page-independent part of a search key starts with `search-`. |
| `CacheKeys.SearchKey` | index.js:98 | A search key extends its page-independent part, and is longer than it exactly when a non-empty page is given. |
| `CacheKeys.NewsKeyInjective` | index.js:131 | For the languages `te` and `en`, two news keys are equal iff they have the same language and the same effective page (an absent page and an empty page count as the same). So a page key never equals the page-less key, and distinct pages give distinct keys. |
| `CacheKeys.SearchKeyDistinguishesPages` | index.js:98 | For one language, query and category, two search keys are equal iff their effective pages are equal. |
| `CacheKeys.KeyFamiliesDisjoint` | index.js:98-131 | A news key never equals a search key or `englishNews`, and a search key never equals `englishNews`. |
| `CacheKeys.SearchKeyCollisions` | index.js:94-98 | These request pairs share one key: a missing `q` and `category` versus the literal `undefined`, and category `sports-page-2` without a page versus category `sports` with page `2`. |
| `Quota.ZeroCounts` | index.js:47-51 | The counters that `resetRateLimit` installs hold all three buckets at 0. |
| `Coordinator.SearchLanguage` | index.js:95 | The search language is never empty. It is the given language when present and non-empty, otherwise `te`. |
| `Coordinator.Initial` | index.js:31-42 | At start every bucket is 0, the reset time is one window after start, the request count is 0, the cache is empty, and the invariant holds. |
| `Coordinator.ResetRateLimit` | index.js:45-54 | A reset zeroes all three buckets and `apiRequestCount`, sets the reset time to `now` plus one window, clears `firstRequestTime`, and keeps the cache. |
| `Coordinator.CacheLookup` | index.js:132-134 | A lookup hits iff the key is present and its value is truthy. A hit returns the stored value. |
| `Coordinator.Serve` | index.js:132-156 | The invariant is kept. The response is an envelope, the 429 message or the 500 message. The cache is unchanged or gains the fetched value under the lookup key only. The reset time is unchanged or becomes `now` plus one window. Every other bucket is unchanged or reset to 0. |
| `Coordinator.NewsRequest` | index.js:127-157 | A news request writes the cache only under its own news key. It touches the search bucket only through a reset. It raises `apiRequestCount` by one, or leaves it at 0 after a reset. |
| `Coordinator.SearchRequest` | index.js:91-124 | A search request writes the cache only under its own search key. It touches the news buckets only through a reset. It raises `apiRequestCount` by one, or leaves it at 0 after a reset. |
| `Coordinator.LatestEnglishNews` | index.js:248-258 | `/latestnewsenglish` never touches the buckets, the reset time or `apiRequestCount`. A hit is served from the cache. A miss with a failed fetch is a 500 with the English-news message. A miss with a successful fetch caches the value under `englishNews` and serves it. |
| `Coordinator.HandleKeepsInvariant` | index.js:139-149 | No request takes a bucket past 30 or sets `firstRequestTime`. |
| `Coordinator.CacheHitConsumesNoQuota` | index.js:128-136 | On a cache hit the response is the envelope of the cached value. Only `apiRequestCount` changes, whatever the upstream would return. |
| `Coordinator.ExhaustedBucketIsRefused` | index.js:139-142 | A miss on a bucket at 30, before the reset time, gets 429. Only `apiRequestCount` changes, whatever the upstream would return. |
| `Coordinator.ExpiredWindowResetsAllBuckets` | index.js:139-149 | A miss on a bucket at 30, at or after the reset time, resets first: the bucket ends at 1, the others at 0, the reset time at `now` plus one window, `firstRequestTime` at null and `apiRequestCount` at 0. The cache gains only the fetched value. |
| `Coordinator.NoResetBelowLimit` | index.js:139-149 | A miss on a bucket below 30 charges that bucket one call and resets nothing, however far past the reset time `now` is. |
| `Coordinator.FailedFetchStaysCharged` | index.js:148-156 | A failed upstream call after the gate gives 500 with the cache unchanged, and the bucket stays charged: one more call, or 1 after a reset. |
| `Coordinator.FetchedValueIsCached` | index.js:148-153 | A successful upstream call after the gate is served, and stored under exactly the key it was looked up by. |
| `Coordinator.TeluguRoutesShareKeyAndBucket` | index.js:77-83 | `/telugu/news` and `/telugutwo/news` use the same cache key for every page and the same `telugu` bucket. |
| `Coordinator.RepeatedRequestIsCacheHit` | index.js:131-152 | After a request is served a truthy value, the next request with the same key gets that value from the cache. No bucket, reset time or cache entry changes. |
| `Coordinator.LaterRequestIsCacheHit` | index.js:131-152 | After a request is served a truthy value, a request with the same key made after any run of requests in which NodeCache expires nothing gets that value from the cache. No bucket, reset time or cache entry changes. |
| `Coordinator.RunKeepsInvariant` | index.js:139-149 | Over any sequence of requests and cache expiries, at any times, every bucket stays at most 30. |
| `Coordinator.CachedEntryPersists` | index.js:132-152 | A truthy cached value is never overwritten while no expiry happens. |
| `Coordinator.ExpiredEntryMisses` | index.js:13 | Once NodeCache expires a key, the next lookup of that key misses. |
| `Coordinator.BurstBelowLimit` | index.js:106-119 | Below the limit, a burst of distinct uncached pages at one instant is served in full. The search bucket grows by the burst's length and the reset time does not change. |
| `Coordinator.BurstAfterReset` | index.js:106-116 | With the search bucket full and its reset time passed, 30 distinct uncached pages are all served. The first one resets the window, and the bucket ends full again. |
| `Coordinator.StaleWindowAllowsDoubleBurst` | index.js:105-116 | A server that stays idle for one window, then receives 60 distinct search requests in one millisecond, serves all 60 from upstream. The 61st is refused with 429. |
| `RateLimitStatus.TimeElapsed` | index.js:161 | The elapsed time is 0 when `firstRequestTime` is null or 0, and `now` minus it when it is set and non-zero. |
| `RateLimitStatus.RateLimitInfo` | index.js:160-180 | For each bucket, the report gives the count as requests. Requests plus remaining is 30, and time remaining plus elapsed time is one window. |
| `RateLimitStatus.ReportInReachableState` | index.js:160-180 | In every reachable state, each bucket's remaining calls are between 0 and 30 and its time remaining is the full 900000 ms. |
| `Gateway.GatewayState.constructor` | index.js:31-42 | The fresh object is the initial state and satisfies the invariant. |
| `Gateway.GatewayState.ResetRateLimit` | index.js:45-54 | The new state is the reset of the old one at `now`. |
| `Gateway.GatewayState.CacheOrFetch` | index.js:132-156 | Cache, gate, charge and store, in place. The new state and response are those of `Coordinator.Serve`, and the invariant is kept. |
| `Gateway.GatewayState.HandleNewsRequest` | index.js:127-157 | The new state and response are those of `Coordinator.NewsRequest`, and the invariant is kept. |
| `Gateway.GatewayState.HandleSearch` | index.js:91-124 | The new state and response are those of `Coordinator.SearchRequest`, and the invariant is kept. |
| `Gateway.GatewayState.HandleLatestEnglishNews` | index.js:248-258 | The new state and response are those of `Coordinator.LatestEnglishNews`, and the invariant is kept. |
| `Gateway.GatewayState.Expire` | index.js:13 | A NodeCache expiry removes exactly that key. Nothing else changes. |

## Left out

- **Express routing, middleware, static files and `app.listen`.** These are
  plumbing. Each route is a handler method or function that takes `now`, its
  query parameters and the upstream result.
- **Upstream calls.** This covers `fetchNewsData`, `fetchEnglishNews`,
  `fetchAndScrapeData`, `scrapeContent`, axios and cheerio. They are network
  I/O; their result is an `Option<Payload>` input (`None` when the call threw).
  The model does not capture that `fetchEnglishNews` always yields an array.
- **The `/latestnewstelugu` route.** It is a fetch-and-encrypt pass-through with
  no cache or quota state.
- **AES-256-CBC, `crypto.randomBytes`, hex encoding and `JSON.stringify`.**
  These are foreign calls. The envelope is the symbolic pair of the IV, passed
  in, and the payload. That an envelope decrypts to its payload, and that the
  IV is fresh for every call, are assumptions built into this symbolic
  envelope, not proved properties of the cipher.
- **An exception thrown by `encryptData`.** This happens with a missing or
  malformed `SECRET_KEY`. Inside the `try`, it would turn a served response into
  a 500 after the cache write. On a cache hit (index.js:102, index.js:135)
  `encryptData` runs outside any `try`, so the exception escapes the async
  handler and no response is sent. It is a configuration error and is not modelled.
- **NodeCache internals.** The cache is a map. TTL expiry (`stdTTL: 43200`) is an
  `Expire(key)` event that can happen at any time, and clone-on-get is not
  modelled.
- **Node's asynchronous interleaving.** Each handler is one atomic step. In the
  source, the cache write happens after an `await`, so concurrent duplicate
  misses each fetch and charge, and the later write overwrites the earlier
  one's truthy value. The model serialises them, so `CachedEntryPersists`
  holds only for requests that do not overlap.
- **Two clock reads.** `Date.now()` is read twice within one synchronous step
  (the remaining-time check and `resetRateLimit`). The model uses one `now` for both.
- **Floating point.** The `/ 1000` conversion to seconds in `/rate-limit` is
  left out, so times stay in integer milliseconds. Numbers in payloads are
  integers, so `NaN` and `-0` are not modelled as falsy values.
- **Query parameters parsed as arrays or objects.** Express can parse
  parameters such as `?q[a]=1` this way. The model takes query parameters as
  optional strings only.
- **Integer width.** `apiRequestCount` is an unbounded `nat`. JavaScript numbers
  are exact only up to 2^53.
- **Configuration.** `dotenv`, API keys and `PORT` are left out. API keys only
  select the upstream account, and the two Telugu routes differ only in theirs.
