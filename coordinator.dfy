/**
 * The request-arbitration logic of index.js as functions of the gateway's
 * state: cache lookup, the quota gate with its lazy reset, the upstream
 * call (whose result is an input) and the cache write. Each handler is one
 * atomic step; the class in module Gateway is proved to follow these
 * functions, and the lemmas below state what the handlers promise.
 */
module Coordinator {
  import opened Wrappers
  import opened Envelope
  import opened Quota
  import opened CacheKeys

  /** The module-level state of index.js:13 and index.js:31-42. */
  datatype Snapshot = Snapshot(
    counts: Counts,                  // originalApiRequestCounts
    resetTime: int,                  // rateLimitResetTime, in ms
    firstRequestTime: Option<int>,   // firstRequestTime (null is None)
    apiRequestCount: nat,            // apiRequestCount
    cache: map<string, Payload>)     // the NodeCache instance

  /** What a handler sends: an envelope with status 200, or an error status and message. */
  datatype Response =
    | Served(envelope: Envelope)
    | Failed(status: nat, message: string)

  const TooManyRequests: nat := 429
  const InternalServerError: nat := 500
  const RateLimitMessage: string := "Rate limit reached. Please try again later."
  const FetchFailedMessage: string := "Failed to fetch data"
  const EnglishFetchFailedMessage: string := "Failed to fetch English news"

  datatype Outcome = Outcome(state: Snapshot, response: Response)

  /** The three news routes; they differ only in language, bucket and API key. */
  datatype Route = TeluguNews | TeluguTwoNews | EnglishNews

  function Language(route: Route): string
  {
    if route == EnglishNews then "en" else "te"
  }

  function BucketOf(route: Route): Bucket
  {
    if route == EnglishNews then English else Telugu
  }

  /** `req.query.language || 'te'`. */
  function SearchLanguage(language: Option<string>): (l: string)
    ensures l != ""
    ensures l == "te" || language == Some(l)
    ensures language.Some? && language.value != "" ==> l == language.value
  {
    if language.Some? && language.value != "" then language.value else "te"
  }

  /** The gateway invariant: every bucket within `rateLimit`, and `firstRequestTime` never set. */
  predicate Valid(s: Snapshot)
  {
    WithinLimit(s.counts) && s.firstRequestTime == None
  }

  /** The state at process start, `startTime` being `Date.now()` at that moment. */
  function Initial(startTime: int): (s: Snapshot)
    ensures Valid(s)
    ensures forall b: Bucket :: s.counts[b] == 0
    ensures s.resetTime == startTime + RateLimitWindow
    ensures s.apiRequestCount == 0 && s.cache == map[]
  {
    Snapshot(ZeroCounts(), startTime + RateLimitWindow, None, 0, map[])
  }

  /** `resetRateLimit()` run at time `now`: every bucket and the request counter start over. */
  function ResetRateLimit(s: Snapshot, now: int): (r: Snapshot)
    ensures Valid(r)
    ensures forall b: Bucket :: r.counts[b] == 0
    ensures r.apiRequestCount == 0
    ensures r.resetTime == now + RateLimitWindow
    ensures r.cache == s.cache
  {
    s.(counts := ZeroCounts(), apiRequestCount := 0, resetTime := now + RateLimitWindow, firstRequestTime := None)
  }

  /** `cache.get(key)` followed by `if (cachedData)`: a hit is a present, truthy entry. */
  function CacheLookup(cache: map<string, Payload>, key: string): (hit: Option<Payload>)
    ensures hit.Some? <==> key in cache && Truthy(cache[key])
    ensures hit.Some? ==> hit.value == cache[key]
  {
    if key in cache && Truthy(cache[key]) then Some(cache[key]) else None
  }

  /**
   * The shared tail of `handleNewsRequest` and of the `/search` handler,
   * after `apiRequestCount++` and the key: serve from the cache, or pass the
   * gate (resetting every bucket when the window is over), charge the
   * bucket, and store what the upstream call returned.
   */
  function Serve(s: Snapshot, bucket: Bucket, key: string, now: int, fetched: Option<Payload>, iv: IV): (r: Outcome)
    requires HasAllBuckets(s.counts)
    ensures HasAllBuckets(r.state.counts)
    ensures Valid(s) ==> Valid(r.state)
    ensures r.response.Served? || r.response == Failed(TooManyRequests, RateLimitMessage)
         || r.response == Failed(InternalServerError, FetchFailedMessage)
    ensures r.state.cache == s.cache || (fetched.Some? && r.state.cache == s.cache[key := fetched.value])
    ensures r.state.resetTime == s.resetTime || r.state.resetTime == now + RateLimitWindow
    ensures forall b: Bucket :: b != bucket ==> r.state.counts[b] == s.counts[b] || r.state.counts[b] == 0
  {
    var cached := CacheLookup(s.cache, key);
    if cached.Some? then
      Outcome(s, Served(EncryptData(cached.value, iv)))
    else if s.counts[bucket] >= RateLimit && s.resetTime - now > 0 then
      Outcome(s, Failed(TooManyRequests, RateLimitMessage))
    else
      var gated := if s.counts[bucket] >= RateLimit then ResetRateLimit(s, now) else s;
      var charged := gated.(counts := gated.counts[bucket := gated.counts[bucket] + 1]);
      match fetched
      case None => Outcome(charged, Failed(InternalServerError, FetchFailedMessage))
      case Some(data) => Outcome(charged.(cache := charged.cache[key := data]), Served(EncryptData(data, iv)))
  }

  /** `handleNewsRequest` for one of the news routes. */
  function NewsRequest(s: Snapshot, route: Route, page: Option<string>, now: int, fetched: Option<Payload>, iv: IV): (r: Outcome)
    requires HasAllBuckets(s.counts)
    ensures HasAllBuckets(r.state.counts)
    ensures r.state.cache == s.cache
         || (fetched.Some? && r.state.cache == s.cache[NewsKey(Language(route), page) := fetched.value])
    ensures r.state.counts[Search] == s.counts[Search] || r.state.counts[Search] == 0
    ensures r.state.apiRequestCount == s.apiRequestCount + 1 || r.state.apiRequestCount == 0
  {
    Serve(s.(apiRequestCount := s.apiRequestCount + 1), BucketOf(route), NewsKey(Language(route), page), now, fetched, iv)
  }

  /** The `/search` handler. */
  function SearchRequest(s: Snapshot, language: Option<string>, q: Option<string>, category: Option<string>,
                         page: Option<string>, now: int, fetched: Option<Payload>, iv: IV): (r: Outcome)
    requires HasAllBuckets(s.counts)
    ensures HasAllBuckets(r.state.counts)
    ensures r.state.cache == s.cache
         || (fetched.Some? && r.state.cache == s.cache[SearchKey(SearchLanguage(language), q, category, page) := fetched.value])
    ensures forall b: Bucket :: b != Search ==> r.state.counts[b] == s.counts[b] || r.state.counts[b] == 0
    ensures r.state.apiRequestCount == s.apiRequestCount + 1 || r.state.apiRequestCount == 0
  {
    Serve(s.(apiRequestCount := s.apiRequestCount + 1), Search,
          SearchKey(SearchLanguage(language), q, category, page), now, fetched, iv)
  }

  /** The `/latestnewsenglish` handler: the cache or `fetchEnglishNews`, with no quota. */
  function LatestEnglishNews(s: Snapshot, fetched: Option<Payload>, iv: IV): (r: Outcome)
    ensures r.state.counts == s.counts && r.state.resetTime == s.resetTime
    ensures r.state.apiRequestCount == s.apiRequestCount && r.state.firstRequestTime == s.firstRequestTime
    ensures CacheLookup(s.cache, LatestEnglishKey).Some? ==>
              r == Outcome(s, Served(EncryptData(s.cache[LatestEnglishKey], iv)))
    ensures CacheLookup(s.cache, LatestEnglishKey).None? && fetched.None? ==>
              r == Outcome(s, Failed(InternalServerError, EnglishFetchFailedMessage))
    ensures CacheLookup(s.cache, LatestEnglishKey).None? && fetched.Some? ==>
              r.state.cache == s.cache[LatestEnglishKey := fetched.value] &&
              r.response == Served(EncryptData(fetched.value, iv))
  {
    var cached := CacheLookup(s.cache, LatestEnglishKey);
    if cached.Some? then
      Outcome(s, Served(EncryptData(cached.value, iv)))
    else
      match fetched
      case None => Outcome(s, Failed(InternalServerError, EnglishFetchFailedMessage))
      case Some(data) => Outcome(s.(cache := s.cache[LatestEnglishKey := data]), Served(EncryptData(data, iv)))
  }

  /** A request to one of the arbitrated routes. */
  datatype Request =
    | News(route: Route, page: Option<string>)
    | SearchNews(language: Option<string>, q: Option<string>, category: Option<string>, page: Option<string>)
    | LatestEnglish

  /** The news routes and `/search` go through the quota gate. */
  predicate Gated(request: Request)
  {
    !request.LatestEnglish?
  }

  /** The cache key a request is looked up and stored under. */
  function KeyOf(request: Request): string
  {
    match request
    case News(route, page) => NewsKey(Language(route), page)
    case SearchNews(language, q, category, page) => SearchKey(SearchLanguage(language), q, category, page)
    case LatestEnglish => LatestEnglishKey
  }

  /** The quota bucket a gated request is charged to. */
  function BucketFor(request: Request): Bucket
    requires Gated(request)
  {
    if request.News? then BucketOf(request.route) else Search
  }

  /** One request, `now` being `Date.now()` and `fetched` the upstream result (None: it threw). */
  function Handle(s: Snapshot, request: Request, now: int, fetched: Option<Payload>, iv: IV): (r: Outcome)
    requires HasAllBuckets(s.counts)
    ensures HasAllBuckets(r.state.counts)
  {
    match request
    case News(route, page) => NewsRequest(s, route, page, now, fetched, iv)
    case SearchNews(language, q, category, page) => SearchRequest(s, language, q, category, page, now, fetched, iv)
    case LatestEnglish => LatestEnglishNews(s, fetched, iv)
  }

  /** Something that changes the gateway's state: a request, or NodeCache expiring an entry. */
  datatype Event =
    | Call(request: Request, now: int, fetched: Option<Payload>, iv: IV)
    | Expire(key: string)

  function Step(s: Snapshot, e: Event): (r: Snapshot)
    requires HasAllBuckets(s.counts)
    ensures HasAllBuckets(r.counts)
  {
    match e
    case Call(request, now, fetched, iv) => Handle(s, request, now, fetched, iv).state
    case Expire(key) => s.(cache := s.cache - {key})
  }

  function Run(s: Snapshot, events: seq<Event>): (r: Snapshot)
    requires HasAllBuckets(s.counts)
    ensures HasAllBuckets(r.counts)
    decreases |events|
  {
    if events == [] then s else Run(Step(s, events[0]), events[1..])
  }

  // ----- What one request does -----

  /** The news routes and `/search` keep every bucket within `rateLimit`. */
  lemma HandleKeepsInvariant(s: Snapshot, request: Request, now: int, fetched: Option<Payload>, iv: IV)
    requires Valid(s)
    ensures Valid(Handle(s, request, now, fetched, iv).state)
  {
  }

  /**
   * A cache hit is answered with the cached value; only `apiRequestCount`
   * moves, and the upstream result is never looked at.
   */
  lemma CacheHitConsumesNoQuota(s: Snapshot, request: Request, now: int, fetched: Option<Payload>, iv: IV, cached: Payload)
    requires HasAllBuckets(s.counts) && Gated(request)
    requires CacheLookup(s.cache, KeyOf(request)) == Some(cached)
    ensures Handle(s, request, now, fetched, iv)
         == Outcome(s.(apiRequestCount := s.apiRequestCount + 1), Served(EncryptData(cached, iv)))
  {
  }

  /**
   * On a miss, a bucket at the limit before the reset time is refused with
   * 429: no counter, no reset time and no cache entry changes, whatever the
   * upstream would have returned.
   */
  lemma ExhaustedBucketIsRefused(s: Snapshot, request: Request, now: int, fetched: Option<Payload>, iv: IV)
    requires HasAllBuckets(s.counts) && Gated(request)
    requires CacheLookup(s.cache, KeyOf(request)).None?
    requires s.counts[BucketFor(request)] >= RateLimit && s.resetTime - now > 0
    ensures Handle(s, request, now, fetched, iv)
         == Outcome(s.(apiRequestCount := s.apiRequestCount + 1), Failed(TooManyRequests, RateLimitMessage))
  {
  }

  /**
   * On a miss, a bucket at the limit once the reset time has come resets
   * every bucket and the window before it is charged: the requesting bucket
   * ends at 1, the others at 0, and the next reset is a full window away.
   */
  lemma ExpiredWindowResetsAllBuckets(s: Snapshot, request: Request, now: int, fetched: Option<Payload>, iv: IV)
    requires HasAllBuckets(s.counts) && Gated(request)
    requires CacheLookup(s.cache, KeyOf(request)).None?
    requires s.counts[BucketFor(request)] >= RateLimit && now >= s.resetTime
    ensures var r := Handle(s, request, now, fetched, iv).state;
      && r.counts == ZeroCounts()[BucketFor(request) := 1]
      && r.resetTime == now + RateLimitWindow
      && r.firstRequestTime == None
      && r.apiRequestCount == 0
      && r.cache == if fetched.Some? then s.cache[KeyOf(request) := fetched.value] else s.cache
  {
  }

  /**
   * On a miss, a bucket below the limit is charged one call and nothing is
   * reset, however long ago the reset time passed.
   */
  lemma NoResetBelowLimit(s: Snapshot, request: Request, now: int, fetched: Option<Payload>, iv: IV)
    requires HasAllBuckets(s.counts) && Gated(request)
    requires CacheLookup(s.cache, KeyOf(request)).None?
    requires s.counts[BucketFor(request)] < RateLimit
    ensures var r := Handle(s, request, now, fetched, iv).state;
      && r.counts == s.counts[BucketFor(request) := s.counts[BucketFor(request)] + 1]
      && r.resetTime == s.resetTime
      && r.firstRequestTime == s.firstRequestTime
      && r.apiRequestCount == s.apiRequestCount + 1
  {
  }

  /**
   * A failed upstream call past the gate is answered with 500; the charged
   * call stays charged and nothing is cached.
   */
  lemma FailedFetchStaysCharged(s: Snapshot, request: Request, now: int, iv: IV)
    requires HasAllBuckets(s.counts) && Gated(request)
    requires CacheLookup(s.cache, KeyOf(request)).None?
    requires !(s.counts[BucketFor(request)] >= RateLimit && s.resetTime - now > 0)
    ensures var r := Handle(s, request, now, None, iv);
      && r.response == Failed(InternalServerError, FetchFailedMessage)
      && r.state.cache == s.cache
      && r.state.counts[BucketFor(request)]
         == (if s.counts[BucketFor(request)] >= RateLimit then 1 else s.counts[BucketFor(request)] + 1)
  {
  }

  /**
   * A successful upstream call past the gate is answered with the fetched
   * value, stored under exactly the key it was looked up by.
   */
  lemma FetchedValueIsCached(s: Snapshot, request: Request, now: int, data: Payload, iv: IV)
    requires HasAllBuckets(s.counts) && Gated(request)
    requires CacheLookup(s.cache, KeyOf(request)).None?
    requires !(s.counts[BucketFor(request)] >= RateLimit && s.resetTime - now > 0)
    ensures var r := Handle(s, request, now, Some(data), iv);
      && r.response == Served(EncryptData(data, iv))
      && r.state.cache == s.cache[KeyOf(request) := data]
  {
  }

  /** `/telugu/news` and `/telugutwo/news` share their cache keys and their bucket. */
  lemma TeluguRoutesShareKeyAndBucket(page: Option<string>)
    ensures KeyOf(News(TeluguNews, page)) == KeyOf(News(TeluguTwoNews, page))
    ensures BucketFor(News(TeluguNews, page)) == BucketFor(News(TeluguTwoNews, page)) == Telugu
  {
  }

  /**
   * After a request is served a truthy value, the next request with the
   * same key (the same route family, language and page) is served that
   * value from the cache and consumes no quota.
   */
  lemma RepeatedRequestIsCacheHit(s: Snapshot, request1: Request, now1: int, fetched1: Option<Payload>, iv1: IV,
                                  request2: Request, now2: int, fetched2: Option<Payload>, iv2: IV)
    requires HasAllBuckets(s.counts)
    requires KeyOf(request1) == KeyOf(request2)
    requires Handle(s, request1, now1, fetched1, iv1).response.Served?
    requires Truthy(Decrypt(Handle(s, request1, now1, fetched1, iv1).response.envelope))
    ensures var first := Handle(s, request1, now1, fetched1, iv1);
            var second := Handle(first.state, request2, now2, fetched2, iv2);
      && second.response == Served(EncryptData(Decrypt(first.response.envelope), iv2))
      && second.state.counts == first.state.counts
      && second.state.resetTime == first.state.resetTime
      && second.state.cache == first.state.cache
  {
    var first := Handle(s, request1, now1, fetched1, iv1);
    var key := KeyOf(request1);
    var served := Decrypt(first.response.envelope);
    assert CacheLookup(first.state.cache, key) == Some(served) by {
      if request1.LatestEnglish? {
      } else if CacheLookup(s.cache, key).None? {
        assert fetched1 == Some(served);
      }
    }
  }

  /**
   * After a request is served a truthy value, a request with the same key
   * made after any run of requests in which NodeCache expires nothing is
   * still served that value from the cache and consumes no quota.
   */
  lemma LaterRequestIsCacheHit(s: Snapshot, request1: Request, now1: int, fetched1: Option<Payload>, iv1: IV,
                               events: seq<Event>,
                               request2: Request, now2: int, fetched2: Option<Payload>, iv2: IV)
    requires HasAllBuckets(s.counts)
    requires KeyOf(request1) == KeyOf(request2)
    requires Handle(s, request1, now1, fetched1, iv1).response.Served?
    requires Truthy(Decrypt(Handle(s, request1, now1, fetched1, iv1).response.envelope))
    requires NoExpiry(events)
    ensures var first := Handle(s, request1, now1, fetched1, iv1);
            var before := Run(first.state, events);
            var later := Handle(before, request2, now2, fetched2, iv2);
      && later.response == Served(EncryptData(Decrypt(first.response.envelope), iv2))
      && later.state.counts == before.counts
      && later.state.resetTime == before.resetTime
      && later.state.cache == before.cache
  {
    var first := Handle(s, request1, now1, fetched1, iv1);
    var key := KeyOf(request1);
    var served := Decrypt(first.response.envelope);
    RepeatedRequestIsCacheHit(s, request1, now1, fetched1, iv1, request1, now1, fetched1, iv1);
    assert CacheLookup(first.state.cache, key) == Some(served) by {
      if request1.LatestEnglish? {
      } else if CacheLookup(s.cache, key).None? {
        assert fetched1 == Some(served);
      }
    }
    CachedEntryPersists(first.state, events, key);
    var before := Run(first.state, events);
    assert CacheLookup(before.cache, key) == Some(served);
    if Gated(request2) {
      CacheHitConsumesNoQuota(before, request2, now2, fetched2, iv2, served);
    }
  }

  // ----- Runs of events -----

  lemma StepKeepsInvariant(s: Snapshot, e: Event)
    requires Valid(s)
    ensures Valid(Step(s, e))
  {
    if e.Call? {
      HandleKeepsInvariant(s, e.request, e.now, e.fetched, e.iv);
    }
  }

  /** Whatever requests arrive, at whatever times, no bucket ever exceeds `rateLimit`. */
  lemma {:induction false} RunKeepsInvariant(s: Snapshot, events: seq<Event>)
    requires Valid(s)
    ensures Valid(Run(s, events))
    decreases |events|
  {
    if events != [] {
      StepKeepsInvariant(s, events[0]);
      RunKeepsInvariant(Step(s, events[0]), events[1..]);
    }
  }

  /** No entry expires during the events. */
  predicate NoExpiry(events: seq<Event>)
  {
    forall i :: 0 <= i < |events| ==> events[i].Call?
  }

  /**
   * A truthy cached value is never overwritten: until NodeCache expires it,
   * every later request for its key is a hit and nothing writes that key.
   */
  lemma {:induction false} CachedEntryPersists(s: Snapshot, events: seq<Event>, key: string)
    requires HasAllBuckets(s.counts)
    requires NoExpiry(events)
    requires CacheLookup(s.cache, key).Some?
    ensures key in Run(s, events).cache && Run(s, events).cache[key] == s.cache[key]
    decreases |events|
  {
    if events != [] {
      var e := events[0];
      var next := Step(s, e);
      if KeyOf(e.request) == key {
        assert next.cache == s.cache;
      }
      assert NoExpiry(events[1..]) by {
        forall i | 0 <= i < |events[1..]| ensures events[1..][i].Call? {
          assert events[1..][i] == events[i + 1];
        }
      }
      CachedEntryPersists(next, events[1..], key);
    }
  }

  /** Once NodeCache expires an entry, the next request for its key misses and is gated again. */
  lemma ExpiredEntryMisses(s: Snapshot, key: string)
    requires HasAllBuckets(s.counts)
    ensures CacheLookup(Step(s, Expire(key)).cache, key).None?
  {
  }

  /** The responses of a run, one per request, in order. */
  function Responses(s: Snapshot, events: seq<Event>): (rs: seq<Response>)
    requires HasAllBuckets(s.counts)
    ensures |rs| <= |events|
    decreases |events|
  {
    if events == [] then []
    else
      var first := match events[0]
        case Call(request, now, fetched, iv) => [Handle(s, request, now, fetched, iv).response]
        case Expire(_) => [];
      first + Responses(Step(s, events[0]), events[1..])
  }

  lemma {:induction false} RunAppend(s: Snapshot, events1: seq<Event>, events2: seq<Event>)
    requires HasAllBuckets(s.counts)
    ensures Run(s, events1 + events2) == Run(Run(s, events1), events2)
    ensures Responses(s, events1 + events2) == Responses(s, events1) + Responses(Run(s, events1), events2)
    decreases |events1|
  {
    if events1 != [] {
      assert (events1 + events2)[0] == events1[0];
      assert (events1 + events2)[1..] == events1[1..] + events2;
      RunAppend(Step(s, events1[0]), events1[1..], events2);
    } else {
      assert events1 + events2 == events2;
    }
  }

  // ----- The window is not "30 calls per 15 minutes" -----

  /** The key of a `/search` request that gives only a page. */
  function PageKey(page: string): string
  {
    SearchKey(SearchLanguage(None), None, None, Some(page))
  }

  /** `/search?page=p` for each page in turn, all at time `now`, every upstream call returning `data`. */
  function PageBurst(pages: seq<string>, now: int, data: Payload, iv: IV): (events: seq<Event>)
    ensures |events| == |pages|
  {
    if pages == [] then []
    else [Call(SearchNews(None, None, None, Some(pages[0])), now, Some(data), iv)] + PageBurst(pages[1..], now, data, iv)
  }

  predicate DistinctNonEmptyPages(pages: seq<string>)
  {
    (forall i, j :: 0 <= i < j < |pages| ==> pages[i] != pages[j]) &&
    (forall i :: 0 <= i < |pages| ==> pages[i] != "")
  }

  predicate AllServed(rs: seq<Response>)
  {
    forall i :: 0 <= i < |rs| ==> rs[i].Served?
  }

  /** One `/search?page=p` for an uncached page, past the gate, with a successful upstream call. */
  lemma FreshPageStep(s: Snapshot, p: string, now: int, data: Payload, iv: IV)
    requires HasAllBuckets(s.counts)
    requires p != "" && PageKey(p) !in s.cache
    requires !(s.counts[Search] >= RateLimit && s.resetTime - now > 0)
    ensures var o := Handle(s, SearchNews(None, None, None, Some(p)), now, Some(data), iv);
      && o.response == Served(EncryptData(data, iv))
      && o.state.cache == s.cache[PageKey(p) := data]
      && o.state.counts[Search] == (if s.counts[Search] >= RateLimit then 1 else s.counts[Search] + 1)
      && o.state.resetTime == (if s.counts[Search] >= RateLimit then now + RateLimitWindow else s.resetTime)
  {
  }

  /** Caching the first of distinct fresh pages leaves the others fresh. */
  lemma OtherPagesStayFresh(cache: map<string, Payload>, pages: seq<string>, data: Payload)
    requires |pages| > 0 && DistinctNonEmptyPages(pages)
    requires forall p :: p in pages ==> PageKey(p) !in cache
    ensures DistinctNonEmptyPages(pages[1..])
    ensures forall q :: q in pages[1..] ==> PageKey(q) !in cache[PageKey(pages[0]) := data]
  {
    forall q | q in pages[1..]
      ensures PageKey(q) !in cache[PageKey(pages[0]) := data]
    {
      var j :| 0 <= j < |pages[1..]| && pages[1..][j] == q;
      assert pages[j + 1] == q;
      SearchKeyDistinguishesPages(SearchLanguage(None), None, None, Some(pages[0]), Some(q));
    }
  }

  /**
   * Below the limit, a burst of fresh pages is served upstream call by
   * upstream call; pages kept for `later` stay uncached.
   */
  lemma {:induction false} BurstBelowLimit(s: Snapshot, pages: seq<string>, later: seq<string>, now: int, data: Payload, iv: IV)
    requires HasAllBuckets(s.counts)
    requires s.counts[Search] + |pages| <= RateLimit
    requires DistinctNonEmptyPages(pages + later)
    requires forall p :: p in pages + later ==> PageKey(p) !in s.cache
    ensures var r := Run(s, PageBurst(pages, now, data, iv));
      && r.counts[Search] == s.counts[Search] + |pages|
      && r.resetTime == s.resetTime
      && (forall p :: p in later ==> PageKey(p) !in r.cache)
    ensures var rs := Responses(s, PageBurst(pages, now, data, iv));
      |rs| == |pages| && AllServed(rs)
    decreases |pages|
  {
    if pages != [] {
      var events := PageBurst(pages, now, data, iv);
      var p := pages[0];
      assert p == (pages + later)[0];
      var next := Step(s, events[0]);
      FreshPageStep(s, p, now, data, iv);
      OtherPagesStayFresh(s.cache, pages + later, data);
      assert pages[1..] + later == (pages + later)[1..];
      BurstBelowLimit(next, pages[1..], later, now, data, iv);
    }
  }

  /**
   * A full bucket whose reset time has come: the next burst of fresh pages
   * resets the window on its first call and is served in full, leaving the
   * bucket full again with the reset time a window ahead.
   */
  lemma BurstAfterReset(s: Snapshot, pages: seq<string>, extra: string, now: int, data: Payload, iv: IV)
    requires HasAllBuckets(s.counts)
    requires s.counts[Search] == RateLimit && s.resetTime <= now
    requires |pages| == RateLimit
    requires DistinctNonEmptyPages(pages + [extra])
    requires forall p :: p in pages + [extra] ==> PageKey(p) !in s.cache
    ensures var r := Run(s, PageBurst(pages, now, data, iv));
      && r.counts[Search] == RateLimit
      && r.resetTime == now + RateLimitWindow
      && PageKey(extra) !in r.cache
    ensures var rs := Responses(s, PageBurst(pages, now, data, iv));
      |rs| == RateLimit && AllServed(rs)
  {
    var events := PageBurst(pages, now, data, iv);
    var pivot := pages[0];
    assert pivot == (pages + [extra])[0];
    var next := Step(s, events[0]);
    FreshPageStep(s, pivot, now, data, iv);
    OtherPagesStayFresh(s.cache, pages + [extra], data);
    var rest := pages[1..];
    assert rest + [extra] == (pages + [extra])[1..];
    BurstBelowLimit(next, rest, [extra], now, data, iv);
    assert extra in [extra];
  }

  /**
   * The reset time is only checked when a bucket is full, so after an idle
   * window a server started at `startTime` makes 60 upstream search calls
   * at one instant: 30 fill the bucket, the 31st finds the reset time
   * passed and resets every bucket, and 29 more refill it. The 61st is
   * refused.
   */
  lemma StaleWindowAllowsDoubleBurst(startTime: int, pages: seq<string>, data: Payload, iv: IV, extra: string)
    requires |pages| == 2 * RateLimit
    requires DistinctNonEmptyPages(pages + [extra])
    ensures var now := startTime + RateLimitWindow;
            var burst := PageBurst(pages, now, data, iv);
            var rs := Responses(Initial(startTime), burst);
      && |rs| == 2 * RateLimit && AllServed(rs)
      && Handle(Run(Initial(startTime), burst), SearchNews(None, None, None, Some(extra)), now, Some(data), iv).response
         == Failed(TooManyRequests, RateLimitMessage)
  {
    var now := startTime + RateLimitWindow;
    var s0 := Initial(startTime);
    var first, second := pages[..RateLimit], pages[RateLimit..];
    assert pages == first + second;
    var e1, e2 := PageBurst(first, now, data, iv), PageBurst(second, now, data, iv);
    PageBurstAppend(first, second, now, data, iv);
    RunAppend(s0, e1, e2);

    assert first + (second + [extra]) == pages + [extra];
    BurstBelowLimit(s0, first, second + [extra], now, data, iv);
    var s1 := Run(s0, e1);

    assert DistinctNonEmptyPages(second + [extra]) by {
      assert second + [extra] == (pages + [extra])[RateLimit..];
    }
    BurstAfterReset(s1, second, extra, now, data, iv);
    var s2 := Run(s1, e2);
    ExhaustedBucketIsRefused(s2, SearchNews(None, None, None, Some(extra)), now, Some(data), iv);
  }

  lemma {:induction false} PageBurstAppend(pages1: seq<string>, pages2: seq<string>, now: int, data: Payload, iv: IV)
    ensures PageBurst(pages1 + pages2, now, data, iv) == PageBurst(pages1, now, data, iv) + PageBurst(pages2, now, data, iv)
    decreases |pages1|
  {
    if pages1 == [] {
      assert pages1 + pages2 == pages2;
    } else {
      assert (pages1 + pages2)[0] == pages1[0];
      assert (pages1 + pages2)[1..] == pages1[1..] + pages2;
      PageBurstAppend(pages1[1..], pages2, now, data, iv);
    }
  }
}
