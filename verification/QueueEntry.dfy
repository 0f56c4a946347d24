/**
 * One entry of the request queue: its score, the lease a claim of it is, and the
 * thaw-probe mark it may carry.
 */
module QueueEntry {
  import opened Numbers

  const MAX_QUEUE_PRIORITY: int := 10
  const MAX_QUEUE_RETRIES: int := 100
  const QUEUE_RETRY_BAND: int := 1_000_000_000_000
  const QUEUE_PRIORITY_BAND: int := QUEUE_RETRY_BAND * (MAX_QUEUE_RETRIES + 1)
  /** The start of the year 2026 (UTC), in Unix milliseconds. */
  const QUEUE_SCORE_EPOCH_MS: int := 1_767_225_600_000
  /** How long a claim stands unless it is confirmed first. */
  const QUEUE_CLAIM_LEASE_MS: int := 10_000

  datatype Status = Pending | InProgress

  /** The stored metadata; `claimedAt` is the stamp of a claim not yet confirmed. */
  datatype Meta = Meta(
    clientName: string,
    status: Status,
    priority: int,
    retries: int,
    timestamp: int,
    grantId: string,
    isThawRequest: bool,
    ownerId: string,
    claimedAt: Option<int>)

  // ------------------------------------------------------------------- score

  function Clamp(x: int, max: int): int {
    if x < 0 then 0 else if x > max then max else x
  }

  function Pack(p: int, r: int, arrival: int): int {
    (MAX_QUEUE_PRIORITY - p) * QUEUE_PRIORITY_BAND + (MAX_QUEUE_RETRIES - r) * QUEUE_RETRY_BAND + arrival
  }

  /** The score an add gives, or `None` where it throws. */
  function CalculateQueueScore(priority: int, retries: int, timestamp: int): Option<int> {
    var arrival := timestamp - QUEUE_SCORE_EPOCH_MS;
    if arrival >= QUEUE_RETRY_BAND then None
    else
      var score := Pack(Clamp(priority, MAX_QUEUE_PRIORITY), Clamp(retries, MAX_QUEUE_RETRIES), arrival);
      if -MAX_SAFE_INTEGER <= score <= MAX_SAFE_INTEGER then Some(score) else None
  }

  /** The score an update re-writes: the same packing, its arrival clamped instead. */
  function Rescore(priority: int, retries: int, timestamp: int): int {
    Pack(Clamp(priority, MAX_QUEUE_PRIORITY), Clamp(retries, MAX_QUEUE_RETRIES),
      Clamp(timestamp - QUEUE_SCORE_EPOCH_MS, QUEUE_RETRY_BAND - 1))
  }

  function ScoreOf(m: Meta): int { Rescore(m.priority, m.retries, m.timestamp) }

  predicate InEpoch(timestamp: int) {
    QUEUE_SCORE_EPOCH_MS <= timestamp < QUEUE_SCORE_EPOCH_MS + QUEUE_RETRY_BAND
  }

  /** An add and an update agree exactly inside the epoch, and there the score is exact in a double. */
  lemma AddAndUpdateAgree(priority: int, retries: int, timestamp: int)
    ensures CalculateQueueScore(priority, retries, timestamp) == Some(Rescore(priority, retries, timestamp)) <==> InEpoch(timestamp)
    ensures 0 <= Rescore(priority, retries, timestamp) < 9_007_199_254_740_992
  {
  }

  /** Lexicographic: priority, then retries, each descending, then arrival, each of them clamped. */
  predicate Outranks(a: Meta, b: Meta) {
    var (p, q) := (Clamp(a.priority, MAX_QUEUE_PRIORITY), Clamp(b.priority, MAX_QUEUE_PRIORITY));
    var (r, s) := (Clamp(a.retries, MAX_QUEUE_RETRIES), Clamp(b.retries, MAX_QUEUE_RETRIES));
    p > q || (p == q && (r > s || (r == s && a.timestamp < b.timestamp)))
  }

  /** One number carries the whole order: the bands never bleed into each other. */
  lemma ScoreIsRank(a: Meta, b: Meta)
    requires InEpoch(a.timestamp) && InEpoch(b.timestamp)
    ensures ScoreOf(a) < ScoreOf(b) <==> Outranks(a, b)
    ensures ScoreOf(a) == ScoreOf(b) <==> !Outranks(a, b) && !Outranks(b, a)
  {
  }

  function AddScore(m: Meta): Option<int> { CalculateQueueScore(m.priority, m.retries, m.timestamp) }

  /** Whether the score an add gives `a` orders it rightly, either way, against `m`. */
  predicate RankedRightly(a: Meta, m: Meta)
    requires AddScore(a).Some? && AddScore(m).Some?
  {
    && (AddScore(a).value < AddScore(m).value <==> Outranks(a, m))
    && (AddScore(m).value < AddScore(a).value <==> Outranks(m, a))
  }

  /** Against everything the epoch supports. */
  ghost predicate AlwaysRankedRightly(a: Meta)
    requires AddScore(a).Some?
  {
    forall m: Meta :: InEpoch(m.timestamp) && AddScore(m).Some? ==> RankedRightly(a, m)
  }

  /** A request from the last millisecond of the epoch, one retry or one priority above `a`. */
  function NextBand(a: Meta): Meta {
    var last := a.(timestamp := QUEUE_SCORE_EPOCH_MS + QUEUE_RETRY_BAND - 1);
    if a.retries < MAX_QUEUE_RETRIES then last.(retries := Clamp(a.retries, MAX_QUEUE_RETRIES) + 1)
    else last.(priority := Clamp(a.priority, MAX_QUEUE_PRIORITY) + 1, retries := 0)
  }

  /**
   * What the epoch's start is for, exactly: a request that can be scored is ranked rightly
   * against all that the epoch supports if and only if it was made inside the epoch, or
   * stands in the first band of all, where an earlier arrival has no band to reach into.
   */
  lemma RankedRightlyExactly(a: Meta)
    requires AddScore(a).Some?
    ensures AlwaysRankedRightly(a) <==>
      InEpoch(a.timestamp) || (a.priority >= MAX_QUEUE_PRIORITY && a.retries >= MAX_QUEUE_RETRIES)
  {
    if InEpoch(a.timestamp) || (a.priority >= MAX_QUEUE_PRIORITY && a.retries >= MAX_QUEUE_RETRIES) {
      forall m: Meta | InEpoch(m.timestamp) && AddScore(m).Some? ensures RankedRightly(a, m) {
        if InEpoch(a.timestamp) {
          AddAndUpdateAgree(a.priority, a.retries, a.timestamp);
          AddAndUpdateAgree(m.priority, m.retries, m.timestamp);
          ScoreIsRank(a, m);
          ScoreIsRank(m, a);
        }
      }
    } else {
      assert InEpoch(NextBand(a).timestamp) && AddScore(NextBand(a)).Some? && !RankedRightly(a, NextBand(a));
    }
  }

  // ------------------------------------------------------------------- lease

  predicate ClaimLapsed(claimedAt: Option<int>, now: int) {
    claimedAt.Some? && now - claimedAt.value >= QUEUE_CLAIM_LEASE_MS
  }

  /** Pending, or claimed under a lease that has lapsed. */
  predicate Claimable(m: Meta, now: int) {
    m.status == Pending || ClaimLapsed(m.claimedAt, now)
  }

  /** Stamped with a new claim, and unmarked if the claim before it had lapsed. */
  function Claim(m: Meta, now: int): Meta {
    m.(status := InProgress, claimedAt := Some(now),
       isThawRequest := m.status == Pending && m.isThawRequest)
  }

  /** Confirmed, and its owner's to finish: the lease is over without having lapsed. */
  predicate Dispatched(m: Meta) { m.status == InProgress && m.claimedAt.None? }

  predicate Confirmable(m: Meta, claimedAt: int, now: int) {
    m.status == InProgress && m.claimedAt == Some(claimedAt) && !ClaimLapsed(m.claimedAt, now)
  }

  /** A status written by an update ends any claim. */
  function WriteStatus(m: Meta, status: Status): Meta {
    m.(status := status, claimedAt := None)
  }

  /** Whether this entry is a probe under way in the scope of `grantId`. */
  predicate CompetingProbe(m: Meta, grantId: string, anyGrant: bool, now: int) {
    && m.status == InProgress
    && (anyGrant || m.grantId == grantId)
    && m.isThawRequest
    && !ClaimLapsed(m.claimedAt, now)
  }
}
