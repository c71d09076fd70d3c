/**
 * The per-bucket request counters and the shared window of index.js:30-54.
 */
module Quota {

  /** The keys of `originalApiRequestCounts`. */
  datatype Bucket = Telugu | English | Search

  /** `rateLimit`: upstream calls a bucket may make before the gate closes. */
  const RateLimit: nat := 30

  /** `rateLimitWindow`: 15 minutes, in milliseconds. */
  const RateLimitWindow: nat := 15 * 60 * 1000

  type Counts = map<Bucket, nat>

  /** The counters object holds all three buckets. */
  predicate HasAllBuckets(counts: Counts)
  {
    forall b: Bucket :: b in counts
  }

  /** No bucket has made more than `rateLimit` calls. */
  predicate WithinLimit(counts: Counts)
  {
    forall b: Bucket :: b in counts && counts[b] <= RateLimit
  }

  /** The counters object `resetRateLimit` installs. */
  function ZeroCounts(): (counts: Counts)
    ensures WithinLimit(counts)
    ensures forall b: Bucket :: counts[b] == 0
  {
    var counts := map[Telugu := 0, English := 0, Search := 0];
    assert forall b: Bucket :: b in counts by {
      forall b: Bucket ensures b in counts { if b.Telugu? {} else if b.English? {} else {} }
    }
    counts
  }
}
