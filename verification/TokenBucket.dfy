/**
 * The token bucket's lazy refill, the test a claim must pass, and the wait a
 * declined claim is told. Pure arithmetic over one bucket's balance.
 */
module TokenBucket {
  import opened Numbers

  /** The relative shortfall a claim is allowed, one part in a thousand million. */
  const BALANCE_TOLERANCE: real := 0.000000001

  /** The lifetime, in seconds, beyond which Redis stores none. */
  const REDIS_MAX_TTL_SECONDS: int := 9_200_000_000_000_000

  datatype Config = Config(maxTokens: real, tokensToAdd: real, interval: int)
  {
    /** A budget that can hand out tokens; `interval` may still be unusable. */
    predicate Usable() {
      tokensToAdd > 0.0 && maxTokens > 0.0
    }
  }

  /**
   * A bucket's refilled balance. `overflow` sums what refills brought in
   * beyond the ceiling; `fills` goes up each time the ceiling is reached.
   */
  datatype Balance = Balance(tokens: real, lastUpdate: int, overflow: real, fills: nat)

  datatype BudgetError = BadTokensToAdd | BadMaxTokens | BadCost

  function UnusableBudget(cost: real, cfg: Config): (e: Option<BudgetError>)
    ensures e.None? <==> cfg.Usable() && cost >= 0.0
  {
    if !(cfg.tokensToAdd > 0.0) then Some(BadTokensToAdd)
    else if !(cfg.maxTokens > 0.0) then Some(BadMaxTokens)
    else if !(cost >= 0.0) then Some(BadCost)
    else None
  }

  predicate CoversCost(tokens: real, cost: real, maxTokens: real) {
    tokens >= cost - Min(maxTokens, cost) * BALANCE_TOLERANCE
  }

  /** Whole refill intervals between `lastUpdate` and `now`. */
  function Intervals(cfg: Config, lastUpdate: int, now: int): (n: nat) {
    if now - lastUpdate > 0 && cfg.interval > 0 then (now - lastUpdate) / cfg.interval else 0
  }

  function Refill(b: Balance, cfg: Config, now: int): Balance {
    var n := Intervals(cfg, b.lastUpdate, now);
    var tokens := b.tokens + n as real * cfg.tokensToAdd;
    var lastUpdate := b.lastUpdate + n * cfg.interval;
    if tokens > cfg.maxTokens then
      Balance(cfg.maxTokens, lastUpdate, b.overflow + (tokens - cfg.maxTokens), b.fills + 1)
    else if b.tokens < cfg.maxTokens && tokens >= cfg.maxTokens then
      Balance(tokens, lastUpdate, b.overflow, b.fills + 1)
    else
      Balance(tokens, lastUpdate, b.overflow, b.fills)
  }

  /** A bucket nobody has written reads as full, its clock starting now. */
  function Fresh(cfg: Config, now: int): Balance {
    Balance(cfg.maxTokens, now, 0.0, 0)
  }

  /** How long a claim declined at `now`, against the refilled `b`, is told to wait. */
  function WaitTime(b: Balance, cfg: Config, cost: real, now: int): int
    requires cfg.tokensToAdd > 0.0
  {
    MaxInt(0, Ceil((cost - b.tokens) / cfg.tokensToAdd) * cfg.interval - (now - b.lastUpdate))
  }

  /**
   * Seconds until the key expires: at least `ttl`, at least one refill from empty, and at
   * most what can be stored.
   */
  function BucketTtl(ttl: int, cfg: Config): int
    requires cfg.tokensToAdd > 0.0
  {
    var refill := CeilDiv(Ceil(cfg.maxTokens / cfg.tokensToAdd) * cfg.interval, 1000);
    if refill <= ttl then ttl
    else if refill <= REDIS_MAX_TTL_SECONDS then refill
    else REDIS_MAX_TTL_SECONDS
  }

  // ------------------------------------------------------ what a refill keeps

  lemma RefillGrows(b: Balance, cfg: Config, now: int)
    requires cfg.tokensToAdd >= 0.0
    ensures var r := Refill(b, cfg, now);
      && r.tokens <= cfg.maxTokens
      && r.tokens >= Min(b.tokens, cfg.maxTokens)
      && r.overflow >= b.overflow && r.fills >= b.fills
      && (r.overflow > b.overflow ==> r.fills > b.fills)
      && r.tokens + r.overflow - b.tokens - b.overflow
         == Intervals(cfg, b.lastUpdate, now) as real * cfg.tokensToAdd
  {
    Scale(0, Intervals(cfg, b.lastUpdate, now), cfg.tokensToAdd);
  }

  /** A refill brings the balance to the ceiling: it discards some, or ends at it from below. */
  predicate Tops(b: Balance, cfg: Config, now: int) {
    var r := Refill(b, cfg, now);
    r.overflow > b.overflow || (b.tokens < cfg.maxTokens && r.tokens == cfg.maxTokens)
  }

  /** Just those refills are counted, each once, and what is over the ceiling is all that is discarded. */
  lemma FillsExactly(b: Balance, cfg: Config, now: int)
    requires cfg.tokensToAdd >= 0.0
    ensures var r := Refill(b, cfg, now);
      && r.fills == b.fills + (if Tops(b, cfg, now) then 1 else 0)
      && (r.overflow > b.overflow ==> r.tokens == cfg.maxTokens)
  {
    RefillGrows(b, cfg, now);
  }

  /** Just after a refill less than one interval is outstanding. */
  lemma RefillIsCurrent(b: Balance, cfg: Config, now: int)
    requires cfg.interval > 0 && b.lastUpdate <= now
    ensures Refill(b, cfg, now).lastUpdate <= now < Refill(b, cfg, now).lastUpdate + cfg.interval
  {
    var n := Intervals(cfg, b.lastUpdate, now);
    if now > b.lastUpdate {
      assert now - b.lastUpdate == n * cfg.interval + (now - b.lastUpdate) % cfg.interval;
    }
  }

  lemma IntervalsSplit(cfg: Config, lastUpdate: int, t1: int, t2: int)
    requires t1 <= t2
    ensures var n1 := Intervals(cfg, lastUpdate, t1);
      n1 + Intervals(cfg, lastUpdate + n1 * cfg.interval, t2) == Intervals(cfg, lastUpdate, t2)
  {
    var n1 := Intervals(cfg, lastUpdate, t1);
    if cfg.interval > 0 && t1 > lastUpdate {
      var d := cfg.interval;
      QuotientShift(t2 - lastUpdate, d, n1);
      QuotientMonotone(t1 - lastUpdate, t2 - lastUpdate, d);
      assert t2 - (lastUpdate + n1 * d) == t2 - lastUpdate - n1 * d;
      assert n1 * d <= t1 - lastUpdate;
      if t2 - lastUpdate - n1 * d <= 0 {
        assert t2 - lastUpdate == n1 * d;
        Quotient(t2 - lastUpdate, d, n1);
      }
    }
  }

  // --------------------------------------------------------- path independence

  /** Two readings of one bucket that no later decision can tell apart. */
  ghost predicate SameReading(start: nat, a: Balance, b: Balance) {
    && a.tokens == b.tokens && a.lastUpdate == b.lastUpdate && a.overflow == b.overflow
    && (a.fills == start <==> b.fills == start)
    && a.fills >= start && b.fills >= start
  }

  lemma RefillTwice(b: Balance, cfg: Config, t1: int, t2: int)
    requires t1 <= t2 && cfg.tokensToAdd >= 0.0
    ensures SameReading(b.fills, Refill(Refill(b, cfg, t1), cfg, t2), Refill(b, cfg, t2))
  {
    var mid := Refill(b, cfg, t1);
    var n1, n2 := Intervals(cfg, b.lastUpdate, t1), Intervals(cfg, mid.lastUpdate, t2);
    IntervalsSplit(cfg, b.lastUpdate, t1, t2);
    var n := Intervals(cfg, b.lastUpdate, t2);
    assert n == n1 + n2;
    var x := cfg.tokensToAdd;
    assert n as real * x == n1 as real * x + n2 as real * x;
    Scale(0, n1, x);
    Scale(0, n2, x);
    assert n * cfg.interval == n1 * cfg.interval + n2 * cfg.interval;
  }

  /** The balance left by persisting the refill at each of `times`, a decline each. */
  function RefillAt(b: Balance, cfg: Config, times: seq<int>): Balance
    decreases |times|
  {
    if times == [] then b else RefillAt(Refill(b, cfg, times[0]), cfg, times[1..])
  }

  ghost predicate Ascending(times: seq<int>, last: int) {
    && (forall i :: 0 <= i < |times| ==> times[i] <= last)
    && forall i, j :: 0 <= i < j < |times| ==> times[i] <= times[j]
  }

  /** However many declines persisted their refill on the way, the reading is one. */
  lemma {:induction false} RefillPathIndependent(b: Balance, cfg: Config, times: seq<int>, now: int)
    requires Ascending(times, now) && cfg.tokensToAdd >= 0.0
    ensures SameReading(b.fills, Refill(RefillAt(b, cfg, times), cfg, now), Refill(b, cfg, now))
    decreases |times|
  {
    if times == [] {
      RefillGrows(b, cfg, now);
    } else {
      var mid := Refill(b, cfg, times[0]);
      RefillPathIndependent(mid, cfg, times[1..], now);
      RefillTwice(b, cfg, times[0], now);
      RefillGrows(b, cfg, times[0]);
      RefillGrows(mid, cfg, now);
      RefillMonotone(mid, cfg, times[1..], now);
    }
  }

  lemma {:induction false} RefillMonotone(b: Balance, cfg: Config, times: seq<int>, now: int)
    requires cfg.tokensToAdd >= 0.0
    ensures Refill(RefillAt(b, cfg, times), cfg, now).fills >= b.fills
    decreases |times|
  {
    RefillGrows(RefillAt(b, cfg, times), cfg, now);
    if times != [] {
      RefillGrows(b, cfg, times[0]);
      RefillMonotone(Refill(b, cfg, times[0]), cfg, times[1..], now);
    }
  }

  /**
   * A bucket nobody has written is the exception: the first decline stores it,
   * and from then on its refill clock keeps that decline's phase. A later claim
   * finds the same tokens, but the same clock only a whole number of intervals
   * later, and the same discarded total only inside the first interval.
   */
  lemma FirstDeclineFixesPhase(cfg: Config, t1: int, t2: int)
    requires cfg.Usable() && cfg.interval > 0 && t1 <= t2
    ensures var declined, untouched := Refill(Fresh(cfg, t1), cfg, t2), Refill(Fresh(cfg, t2), cfg, t2);
      && declined.tokens == untouched.tokens
      && (declined.lastUpdate == untouched.lastUpdate <==> (t2 - t1) % cfg.interval == 0)
      && (declined.overflow == untouched.overflow <==> t2 - t1 < cfg.interval)
  {
    var n := Intervals(cfg, t1, t2);
    if n > 0 {
      Scale(1, n, cfg.tokensToAdd);
    }
    if t2 - t1 >= cfg.interval {
      QuotientMonotone(cfg.interval, t2 - t1, cfg.interval);
    }
    assert t2 - t1 == n * cfg.interval + (t2 - t1) % cfg.interval by {
      if t2 == t1 { assert 0 % cfg.interval == 0; }
    }
  }

  // ------------------------------------------------------------ the told wait

  /**
   * For a cost within the ceiling the wait is exact: with no claim in between, the
   * bucket holds the cost at a later time if and only if the wait has been served.
   */
  lemma WaitIsExact(b: Balance, cfg: Config, cost: real, now: int, t: int)
    requires cfg.Usable() && cfg.interval > 0 && cost <= cfg.maxTokens
    requires Refill(b, cfg, now) == b && b.tokens < cost && now <= t
    ensures Refill(b, cfg, t).tokens >= cost <==> t >= now + WaitTime(b, cfg, cost, now)
  {
    var d, n := cfg.interval, Ceil((cost - b.tokens) / cfg.tokensToAdd);
    var k := Intervals(cfg, b.lastUpdate, t);
    Divide(0.0, cost - b.tokens, cfg.tokensToAdd);
    StillReading(b, cfg, now);
    Times(1, n, d);
    assert now + WaitTime(b, cfg, cost, now) == b.lastUpdate + n * d;
    IntervalsServed(cfg, b.lastUpdate, t, n);
    Credited(k, cost - b.tokens, cfg.tokensToAdd);
  }

  /** `k` intervals' credit reaches `missing` exactly from the rounded-up quotient on. */
  lemma Credited(k: int, missing: real, add: real)
    requires add > 0.0
    ensures k as real * add >= missing <==> k >= Ceil(missing / add)
  {
    var q := missing / add;
    Divide(missing, missing, add);
    if k as real >= q {
      assert (k as real - q) * add >= 0.0;
    } else {
      assert (q - k as real) * add > 0.0;
    }
  }

  lemma IntervalsServed(cfg: Config, lastUpdate: int, t: int, n: int)
    requires cfg.interval > 0 && n >= 1
    ensures Intervals(cfg, lastUpdate, t) >= n <==> t >= lastUpdate + n * cfg.interval
  {
    var d, k := cfg.interval, Intervals(cfg, lastUpdate, t);
    Times(1, n, d);
    if t > lastUpdate {
      assert k * d <= t - lastUpdate < k * d + d;
      if k >= n { Times(n, k, d); } else { Times(k + 1, n, d); }
    }
  }

  /** A balance a refill leaves alone has no whole interval outstanding. */
  lemma StillReading(b: Balance, cfg: Config, now: int)
    requires cfg.interval > 0 && Refill(b, cfg, now) == b
    ensures now < b.lastUpdate + cfg.interval
  {
    var n := Intervals(cfg, b.lastUpdate, now);
    assert n * cfg.interval == 0;
    IntervalsServed(cfg, b.lastUpdate, now, 1);
    if n >= 1 {
      Times(1, n, cfg.interval);
    }
  }

  /** A refilled balance is one that a refill at the same instant leaves alone. */
  lemma RefillSettles(b: Balance, cfg: Config, now: int)
    requires cfg.tokensToAdd >= 0.0
    ensures var r := Refill(b, cfg, now); Refill(r, cfg, now) == r
  {
    var r := Refill(b, cfg, now);
    IntervalsSplit(cfg, b.lastUpdate, now, now);
    assert Intervals(cfg, r.lastUpdate, now) == 0;
    assert 0 as real * cfg.tokensToAdd == 0.0;
    assert 0 * cfg.interval == 0;
    RefillGrows(b, cfg, now);
  }

  /**
   * The key outlives the wait of a bucket that is not in debt, so the wait is
   * served against the stored balance and not against a recreated full bucket.
   */
  lemma WaitWithinTtl(b: Balance, cfg: Config, cost: real, now: int, ttl: int)
    requires cfg.Usable() && cfg.interval > 0 && 0.0 <= b.tokens < cost <= cfg.maxTokens
    requires b.lastUpdate <= now
    requires ttl > 0
    requires CeilDiv(Ceil(cfg.maxTokens / cfg.tokensToAdd) * cfg.interval, 1000) <= REDIS_MAX_TTL_SECONDS
    ensures now + WaitTime(b, cfg, cost, now) <= now + BucketTtl(ttl, cfg) * 1000
  {
    var q, full := (cost - b.tokens) / cfg.tokensToAdd, cfg.maxTokens / cfg.tokensToAdd;
    Divide(cost - b.tokens, cfg.maxTokens, cfg.tokensToAdd);
    Times(Ceil(q), Ceil(full), cfg.interval);
  }

  /** A bucket empty at the start of so many seconds is full at their end. */
  predicate FillsWithin(cfg: Config, seconds: int) {
    Intervals(cfg, 0, seconds * 1000) as real * cfg.tokensToAdd >= cfg.maxTokens
  }

  /** The lifetime is the least that is long enough to fill the bucket and to be what was asked for, or all that can be stored. */
  lemma TtlIsShortestStorable(ttl: int, cfg: Config)
    requires cfg.Usable() && cfg.interval > 0 && 0 < ttl <= REDIS_MAX_TTL_SECONDS
    ensures var lifetime := BucketTtl(ttl, cfg);
      && ttl <= lifetime <= REDIS_MAX_TTL_SECONDS
      && (FillsWithin(cfg, lifetime) || lifetime == REDIS_MAX_TTL_SECONDS)
      && (lifetime > ttl ==> !FillsWithin(cfg, lifetime - 1))
  {
    var lifetime, full := BucketTtl(ttl, cfg), Ceil(cfg.maxTokens / cfg.tokensToAdd);
    Divide(0.0, cfg.maxTokens, cfg.tokensToAdd);
    Credited(Intervals(cfg, 0, lifetime * 1000), cfg.maxTokens, cfg.tokensToAdd);
    Credited(Intervals(cfg, 0, (lifetime - 1) * 1000), cfg.maxTokens, cfg.tokensToAdd);
    IntervalsServed(cfg, 0, lifetime * 1000, full);
    IntervalsServed(cfg, 0, (lifetime - 1) * 1000, full);
  }
}
