/**
 * The `/rate-limit` diagnostic (index.js:160-180): a read-only report of
 * each bucket's counter, with times kept in integer milliseconds.
 */
module RateLimitStatus {
  import opened Wrappers
  import opened Quota
  import opened Coordinator

  /** One bucket's entry: calls made, calls left, and time left in the window. */
  datatype BucketStatus = BucketStatus(requests: nat, remaining: int, timeRemainingMs: int)

  /** The `Teluguapi`, `Englishapi` and `SearchApi` entries. */
  datatype Report = Report(teluguApi: BucketStatus, englishApi: BucketStatus, searchApi: BucketStatus)

  function EntryFor(report: Report, bucket: Bucket): BucketStatus
  {
    match bucket
    case Telugu => report.teluguApi
    case English => report.englishApi
    case Search => report.searchApi
  }

  /** `firstRequestTime ? Date.now() - firstRequestTime : 0`; a zero timestamp is falsy too. */
  function TimeElapsed(firstRequestTime: Option<int>, now: int): (elapsed: int)
    ensures firstRequestTime.None? ==> elapsed == 0
    ensures firstRequestTime == Some(0) ==> elapsed == 0
    ensures firstRequestTime.Some? && firstRequestTime.value != 0 ==> elapsed + firstRequestTime.value == now
  {
    if firstRequestTime.Some? && firstRequestTime.value != 0 then now - firstRequestTime.value else 0
  }

  /** The report `/rate-limit` sends at time `now`; it changes nothing. */
  function RateLimitInfo(s: Snapshot, now: int): (report: Report)
    requires HasAllBuckets(s.counts)
    ensures forall b: Bucket ::
      && EntryFor(report, b).requests == s.counts[b]
      && EntryFor(report, b).requests + EntryFor(report, b).remaining == RateLimit
      && EntryFor(report, b).timeRemainingMs + TimeElapsed(s.firstRequestTime, now) == RateLimitWindow
  {
    var timeRemaining := RateLimitWindow - TimeElapsed(s.firstRequestTime, now);
    Report(
      BucketStatus(s.counts[Telugu], RateLimit - s.counts[Telugu], timeRemaining),
      BucketStatus(s.counts[English], RateLimit - s.counts[English], timeRemaining),
      BucketStatus(s.counts[Search], RateLimit - s.counts[Search], timeRemaining))
  }

  /**
   * In every reachable state the calls left are between 0 and `rateLimit`,
   * and, `firstRequestTime` never being set, the time left is always the
   * full window.
   */
  lemma ReportInReachableState(s: Snapshot, now: int)
    requires Valid(s)
    ensures forall b: Bucket ::
      && 0 <= EntryFor(RateLimitInfo(s, now), b).remaining <= RateLimit
      && EntryFor(RateLimitInfo(s, now), b).timeRemainingMs == RateLimitWindow
  {
  }
}
