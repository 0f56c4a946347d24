/**
 * The budgets a client's limits stand for, one spec for each, and which costs they could
 * ever hand out.
 */
module LimitSpecs {
  import opened Numbers
  import opened Costs
  import opened TokenBucket
  import opened Buckets
  import opened Slots
  import opened MultiLimit
  import opened AllOrNothing
  import opened MemberOrder

  /** Where a client, or one of its grants, keeps its budgets and its freeze. */
  datatype Keys = Keys(buckets: string, slots: string, freeze: string)

  /** One attempt at a request: its queue entry, its slot, its cost, and whether it will be settled. */
  datatype Attempt = Attempt(requestId: Text, slotId: string, cost: Cost, settles: bool)

  /** Lives as long as the settle window or as one refill from empty, whichever is longer. */
  function MarkFor(attempt: Attempt, cfg: Config, settleWindowMs: int): Option<ClaimMark> {
    if !attempt.settles || !(cfg.tokensToAdd > 0.0) then None
    else
      var refillMs := Ceil(cfg.maxTokens / cfg.tokensToAdd) * cfg.interval;
      Some(ClaimMark(attempt.slotId, CeilDiv(MaxInt(settleWindowMs, refillMs), 1000)))
  }

  datatype Client = Client(limits: seq<Limit>, keys: Keys, requestTtl: int, settleWindowMs: int)
  {
    /** What a limit adds to a claim, as its release or, once marked, as the claim itself. */
    function SpecsOf(limit: Limit, attempt: Attempt): seq<Spec> {
      var amount := ClaimedAmount(attempt.cost, limit.name);
      match limit
      case RequestLimit(name, cfg) =>
        [BucketSpec(keys.buckets + ":" + name, keys.freeze, amount, cfg, MarkFor(attempt, cfg, settleWindowMs))]
      case ConcurrencyLimit(name, maxConcurrency) =>
        [SlotSpec(keys.slots + ":" + name, keys.freeze, amount, SlotConfig(maxConcurrency, requestTtl), attempt.slotId)]
      case NoLimit(_) => []
    }

    function Specs(attempt: Attempt, n: nat): seq<Spec>
      requires n <= |limits|
    {
      if n == 0 then [] else Specs(attempt, n - 1) + SpecsOf(limits[n - 1], attempt)
    }

    /** All specs of the attempt. */
    function Budgets(attempt: Attempt): seq<Spec> { Specs(attempt, |limits|) }

    /** A full ledger names no deadline, so the slot's lease stands in for one. */
    function DeclineWait(waitTime: int): int {
      if waitTime > 0 then waitTime
      else if exists i :: 0 <= i < |limits| && limits[i].ConcurrencyLimit? then requestTtl
      else waitTime
    }

    /** What construction and every accepted update keep. */
    ghost predicate Valid() {
      && UniqueNames(limits) && requestTtl > 0
      && forall limit :: limit in limits ==> limit.Usable()
    }

    /** Every limit that meters the cost finds its amount in it. */
    ghost predicate Named(cost: Cost) {
      forall limit :: limit in limits && limit.Metered() ==> CostFor(cost, limit.name).Some?
    }
  }

  /** The mark each bucket's claim leaves, on a request that will be settled. */
  function WithMarks(specs: seq<Spec>, attempt: Attempt, settleWindowMs: int): seq<Spec> {
    seq(|specs|, i requires 0 <= i < |specs| => WithMark(specs[i], attempt, settleWindowMs))
  }

  function WithMark(spec: Spec, attempt: Attempt, settleWindowMs: int): Spec {
    if spec.BucketSpec? then spec.(mark := MarkFor(attempt, spec.cfg, settleWindowMs)) else spec
  }

  lemma {:induction false} MarkedBudgets(c: Client, attempt: Attempt, n: nat)
    requires n <= |c.limits|
    ensures WithMarks(c.Specs(attempt.(settles := false), n), attempt, c.settleWindowMs) == c.Specs(attempt, n)
  {
    if n > 0 {
      MarkedBudgets(c, attempt, n - 1);
    }
  }

  /** No client is built whose limits repeat a name. */
  ghost predicate UniqueNames(limits: seq<Limit>) {
    forall i, j :: 0 <= i < j < |limits| ==> limits[i].name != limits[j].name
  }

  /** The limit of the client that each of its specs came from. */
  ghost predicate ComesFrom(c: Client, attempt: Attempt, spec: Spec, i: nat) {
    && i < |c.limits|
    && c.SpecsOf(c.limits[i], attempt) == [spec]
  }

  ghost predicate Sourced(c: Client, attempt: Attempt, spec: Spec, n: nat) {
    exists i: nat :: i < n && ComesFrom(c, attempt, spec, i)
  }

  lemma {:induction false} SpecsDistinctUpTo(c: Client, attempt: Attempt, n: nat)
    requires UniqueNames(c.limits) && n <= |c.limits|
    ensures Distinct(c.Specs(attempt, n))
    ensures forall k :: 0 <= k < |c.Specs(attempt, n)| ==> Sourced(c, attempt, c.Specs(attempt, n)[k], n)
  {
    if n > 0 {
      SpecsDistinctUpTo(c, attempt, n - 1);
      var pre, all := c.Specs(attempt, n - 1), c.Specs(attempt, n);
      if |c.SpecsOf(c.limits[n - 1], attempt)| == 1 {
        var last := c.SpecsOf(c.limits[n - 1], attempt)[0];
        assert all == pre + [last] && ComesFrom(c, attempt, last, n - 1);
        assert Sourced(c, attempt, last, n);
        forall k | 0 <= k < |pre| ensures pre[k].key != last.key || pre[k].BucketSpec? != last.BucketSpec? {
          var i: nat :| i < n - 1 && ComesFrom(c, attempt, pre[k], i);
          DifferentNames(c, attempt, i, n - 1, pre[k], last);
        }
        forall k | 0 <= k < |all| ensures Sourced(c, attempt, all[k], n) {
          if k < |pre| {
            var i: nat :| i < n - 1 && ComesFrom(c, attempt, pre[k], i);
            assert i < n && ComesFrom(c, attempt, all[k], i);
          } else {
            assert ComesFrom(c, attempt, all[k], n - 1);
          }
        }
      } else {
        assert all == pre;
        forall k | 0 <= k < |all| ensures Sourced(c, attempt, all[k], n) {
          var i: nat :| i < n - 1 && ComesFrom(c, attempt, pre[k], i);
          assert i < n && ComesFrom(c, attempt, all[k], i);
        }
      }
    }
  }

  /** Two limits of different names never meet in one key. */
  lemma DifferentNames(c: Client, attempt: Attempt, i: nat, j: nat, a: Spec, b: Spec)
    requires UniqueNames(c.limits) && i < j < |c.limits| && ComesFrom(c, attempt, a, i) && ComesFrom(c, attempt, b, j)
    ensures a.key != b.key || a.BucketSpec? != b.BucketSpec?
  {
    var x, y := c.limits[i].name, c.limits[j].name;
    if a.BucketSpec? == b.BucketSpec? {
      var prefix := if a.BucketSpec? then c.keys.buckets + ":" else c.keys.slots + ":";
      assert (prefix + x)[|prefix|..] == x && (prefix + y)[|prefix|..] == y;
    }
  }

  /** Unique names are what makes the budgets of a client distinct. */
  lemma LimitSpecsAreDistinct(c: Client, attempt: Attempt)
    requires UniqueNames(c.limits)
    ensures Distinct(c.Budgets(attempt))
  {
    SpecsDistinctUpTo(c, attempt, |c.limits|);
  }

  lemma {:induction false} OneFreeze(c: Client, attempt: Attempt, n: nat)
    requires n <= |c.limits|
    ensures forall k :: 0 <= k < |c.Specs(attempt, n)| ==> c.Specs(attempt, n)[k].freezeKey == c.keys.freeze
    decreases n
  {
    if n > 0 {
      OneFreeze(c, attempt, n - 1);
    }
  }

  // ------------------------------------------------------------ admissible costs

  lemma {:induction false} SpendableIsUsable(c: Client, attempt: Attempt, n: nat)
    requires n <= |c.limits| && c.Valid() && Spendable(attempt.cost)
    ensures Usable(c.Specs(attempt, n))
  {
    if n > 0 {
      SpendableIsUsable(c, attempt, n - 1);
      assert c.limits[n - 1] in c.limits && ClaimedAmount(attempt.cost, c.limits[n - 1].name) >= 0.0;
    }
  }

  lemma MeteredAreNamed(c: Client, cost: Cost)
    requires NamesExactly(cost, MeteredLimits(c.limits))
    ensures c.Named(cost)
  {
    forall limit | limit in c.limits && limit.Metered() ensures CostFor(cost, limit.name).Some? {
      assert limit in MeteredLimits(c.limits) && limit.name in Names(MeteredLimits(c.limits));
    }
  }

  /** The most a budget ever hands to one claim: a full bucket covers a little over its ceiling. */
  predicate WithinReach(spec: Spec) {
    match spec
    case BucketSpec(_, _, cost, cfg, _) => cost <= cfg.maxTokens + cfg.maxTokens * BALANCE_TOLERANCE
    case SlotSpec(_, _, cost, cfg, _) => cost <= cfg.maxConcurrency
  }

  function StoredCosts(l: Ledger): map<string, real> {
    if l.costs.Some? then l.costs.value.value else map[]
  }

  /** No slot is held at a negative cost; no claim can write one. */
  ghost predicate NoCredit(s: Store) {
    forall key :: Uncredited(s.LedgerOf(key))
  }

  ghost predicate Uncredited(l: Ledger) {
    forall id :: id in StoredCosts(l) ==> StoredCosts(l)[id] >= 0.0
  }

  lemma OccupancyIsOwed(l: Ledger, expireTime: int, id: string, now: int)
    requires Uncredited(l)
    ensures Reap(l, expireTime, now).Occupancy(id, now) >= 0.0
  {
    var held := Reap(l, expireTime, now).Held(id, now);
    assert forall k :: k in held ==> held[k] == 1.0 || (k in StoredCosts(l) && held[k] == StoredCosts(l)[k]);
    TotalPart(map[], held);
  }

  lemma NothingBeyondReach(s: Store, spec: Spec, now: int)
    requires NoCredit(s) && AdmitsAlone(s, spec, now)
    ensures WithinReach(spec)
  {
    match spec
    case BucketSpec(key, _, cost, cfg, _) =>
      var stored := s.CellOf(key).Stored(now);
      if stored.Some? {
        RefillGrows(stored.value.bal, cfg, now);
      } else {
        RefillGrows(Fresh(cfg, now), cfg, now);
      }
      FullBucketCovers(cost, cfg.maxTokens);
    case SlotSpec(key, _, cost, cfg, slotId) =>
      OccupancyIsOwed(s.LedgerOf(key), now - cfg.requestTtl, slotId, now);
  }

  const NOTHING_STORED: Store := Store(map[], 0, map[], map[])

  lemma NothingStoredAdmits(spec: Spec, now: int)
    requires UnusableSpec(spec).None? && WithinReach(spec)
    ensures AdmitsAlone(NOTHING_STORED, spec, now)
  {
    match spec
    case BucketSpec(_, _, cost, cfg, _) =>
      FullBucketCovers(cost, cfg.maxTokens);
    case SlotSpec(_, _, cost, cfg, slotId) =>
      assert Reap(NO_LEDGER, now - cfg.requestTtl, now).Held(slotId, now) == map[];
  }

  /** Some store admits the whole claim exactly when no budget is asked for more than it can hold. */
  lemma ClaimableExactly(specs: seq<Spec>, now: int)
    requires Usable(specs)
    ensures (exists s :: NoCredit(s) && AllAdmit(s, specs, now)) <==> forall i :: 0 <= i < |specs| ==> WithinReach(specs[i])
  {
    if s :| NoCredit(s) && AllAdmit(s, specs, now) {
      forall i | 0 <= i < |specs| ensures WithinReach(specs[i]) {
        NothingBeyondReach(s, specs[i], now);
      }
    }
    if forall i :: 0 <= i < |specs| ==> WithinReach(specs[i]) {
      forall i | 0 <= i < |specs| ensures AdmitsAlone(NOTHING_STORED, specs[i], now) {
        NothingStoredAdmits(specs[i], now);
      }
      assert NoCredit(NOTHING_STORED) && AllAdmit(NOTHING_STORED, specs, now);
    }
  }

  lemma {:induction false} AdmissibleWithinReach(c: Client, attempt: Attempt, n: nat)
    requires n <= |c.limits| && c.Valid() && Admissible(attempt.cost, MeteredLimits(c.limits))
    ensures forall i :: 0 <= i < |c.Specs(attempt, n)| ==> WithinReach(c.Specs(attempt, n)[i])
  {
    if n > 0 {
      AdmissibleWithinReach(c, attempt, n - 1);
      var limit := c.limits[n - 1];
      if limit.Metered() {
        MeteredAreNamed(c, attempt.cost);
        assert limit in c.limits && limit in MeteredLimits(c.limits) && !Breached(attempt.cost, limit);
      }
    }
  }

  /** A cost that passes both checks is usable throughout, and fits budgets nobody has drawn on. */
  lemma AdmissibleIsClaimable(c: Client, attempt: Attempt, now: int)
    requires c.Valid() && Spendable(attempt.cost) && Admissible(attempt.cost, MeteredLimits(c.limits))
    ensures Usable(c.Budgets(attempt))
    ensures exists s :: NoCredit(s) && AllAdmit(s, c.Budgets(attempt), now)
  {
    SpendableIsUsable(c, attempt, |c.limits|);
    AdmissibleWithinReach(c, attempt, |c.limits|);
    ClaimableExactly(c.Budgets(attempt), now);
  }
}
