/**
 * What a turn charges, limit by limit: the amount the attempt names for each, taken from
 * that limit's own bucket or held in its own ledger, and the mark a settled attempt leaves.
 */
module TurnCharges {
  import opened Numbers
  import opened Costs
  import opened TokenBucket
  import opened Buckets
  import opened Slots
  import opened MultiLimit
  import opened AllOrNothing
  import opened LimitSpecs

  /** The one amount of a flat cost, or the entry under the limit's name; a release takes none for a name left out. */
  predicate Charges(cost: Cost, name: string, amount: real) {
    match cost
    case Flat(all) => amount == all
    case PerLimit(amounts) => amount == if name in amounts then amounts[name] else 0.0
  }

  /** The cost says what it takes from every metered limit. */
  ghost predicate NamesAll(cost: Cost, limits: seq<Limit>) {
    cost.PerLimit? ==> forall limit :: limit in limits && limit.Metered() ==> limit.name in cost.amounts
  }

  /** The mark outlasts the settle window and one refill from empty, by less than a second. */
  predicate Outlasts(mark: ClaimMark, cfg: Config, settleWindowMs: int) {
    var ms := mark.ttlSeconds * 1000;
    && ms >= settleWindowMs
    && (cfg.interval > 0 ==> Intervals(cfg, 0, ms) as real * cfg.tokensToAdd >= cfg.maxTokens)
    && (ms - 1000 < settleWindowMs || (cfg.interval > 0 && Intervals(cfg, 0, ms - 1000) as real * cfg.tokensToAdd < cfg.maxTokens))
  }

  /** The spec is this limit's: its kind, key, configuration, freeze and slot, at the amount the attempt names for it. */
  predicate StandsFor(c: Client, attempt: Attempt, spec: Spec, limit: Limit) {
    match limit
    case RequestLimit(name, cfg) =>
      && spec.BucketSpec? && spec.key == c.keys.buckets + ":" + name && spec.freezeKey == c.keys.freeze
      && spec.cfg == cfg && Charges(attempt.cost, name, spec.cost)
      && (cfg.Usable() ==> (spec.mark.Some? <==> attempt.settles))
      && (spec.mark.Some? && cfg.Usable() && cfg.interval > 0 ==>
            spec.mark.value.id == attempt.slotId && Outlasts(spec.mark.value, cfg, c.settleWindowMs))
    case ConcurrencyLimit(name, maxConcurrency) =>
      && spec.SlotSpec? && spec.key == c.keys.slots + ":" + name && spec.freezeKey == c.keys.freeze
      && spec.slotCfg == SlotConfig(maxConcurrency, c.requestTtl) && spec.slotId == attempt.slotId
      && Charges(attempt.cost, name, spec.cost)
    case NoLimit(_) => false
  }

  lemma {:induction false} MeteredSnoc(limits: seq<Limit>, limit: Limit)
    ensures MeteredLimits(limits + [limit]) == MeteredLimits(limits) + if limit.Metered() then [limit] else []
  {
    var one := if limit.Metered() then [limit] else [];
    if limits == [] {
      assert limits + [limit] == [limit] && [limit][1..] == [];
    } else {
      var head := if limits[0].Metered() then [limits[0]] else [];
      MeteredSnoc(limits[1..], limit);
      assert (limits + [limit])[0] == limits[0] && (limits + [limit])[1..] == limits[1..] + [limit];
      assert head + (MeteredLimits(limits[1..]) + one) == head + MeteredLimits(limits[1..]) + one;
    }
  }

  lemma MarkOutlasts(attempt: Attempt, cfg: Config, settleWindowMs: int)
    requires cfg.Usable() && cfg.interval > 0
    ensures var mark := MarkFor(attempt, cfg, settleWindowMs);
      && (mark.Some? <==> attempt.settles)
      && (mark.Some? ==> mark.value.id == attempt.slotId && Outlasts(mark.value, cfg, settleWindowMs))
  {
    var mark := MarkFor(attempt, cfg, settleWindowMs);
    if mark.Some? {
      var full, ms := Ceil(cfg.maxTokens / cfg.tokensToAdd), mark.value.ttlSeconds * 1000;
      Divide(0.0, cfg.maxTokens, cfg.tokensToAdd);
      Credited(Intervals(cfg, 0, ms), cfg.maxTokens, cfg.tokensToAdd);
      Credited(Intervals(cfg, 0, ms - 1000), cfg.maxTokens, cfg.tokensToAdd);
      IntervalsServed(cfg, 0, ms, full);
      IntervalsServed(cfg, 0, ms - 1000, full);
    }
  }

  lemma SpecStandsFor(c: Client, attempt: Attempt, limit: Limit)
    ensures var specs := c.SpecsOf(limit, attempt);
      if limit.Metered() then |specs| == 1 && StandsFor(c, attempt, specs[0], limit) else specs == []
  {
    if limit.RequestLimit? && limit.cfg.Usable() && limit.cfg.interval > 0 {
      MarkOutlasts(attempt, limit.cfg, c.settleWindowMs);
    }
  }

  lemma {:induction false} BudgetsUpTo(c: Client, attempt: Attempt, n: nat)
    requires n <= |c.limits|
    ensures OneForOne(c, attempt, c.Specs(attempt, n), MeteredLimits(c.limits[..n]))
  {
    if n > 0 {
      var limit := c.limits[n - 1];
      BudgetsUpTo(c, attempt, n - 1);
      assert c.limits[..n] == c.limits[..n - 1] + [limit];
      MeteredSnoc(c.limits[..n - 1], limit);
      SpecStandsFor(c, attempt, limit);
      OneMore(c, attempt, c.Specs(attempt, n - 1), MeteredLimits(c.limits[..n - 1]), c.SpecsOf(limit, attempt), limit);
    }
  }

  ghost predicate OneForOne(c: Client, attempt: Attempt, specs: seq<Spec>, limits: seq<Limit>) {
    |specs| == |limits| && forall k :: 0 <= k < |specs| ==> StandsFor(c, attempt, specs[k], limits[k])
  }

  lemma OneMore(c: Client, attempt: Attempt, specs: seq<Spec>, limits: seq<Limit>, more: seq<Spec>, limit: Limit)
    requires OneForOne(c, attempt, specs, limits)
    requires if limit.Metered() then |more| == 1 && StandsFor(c, attempt, more[0], limit) else more == []
    ensures OneForOne(c, attempt, specs + more, limits + if limit.Metered() then [limit] else [])
  {
    assert limit.Metered() ==> (specs + more)[|specs|] == more[0];
  }

  /** The budgets of a client are its metered limits, one for one and in their order. */
  lemma BudgetsAreLimits(c: Client, attempt: Attempt)
    ensures OneForOne(c, attempt, c.Budgets(attempt), MeteredLimits(c.limits))
  {
    BudgetsUpTo(c, attempt, |c.limits|);
    assert c.limits[..|c.limits|] == c.limits;
  }

  /** The limit has been charged the attempt's amount: its bucket reads that much less, or its ledger holds a slot at it. */
  ghost predicate LimitCharged(c: Client, attempt: Attempt, limit: Limit, s: Store, t: Store, now: int) {
    match limit
    case RequestLimit(name, cfg) =>
      var before, after := s.CellOf(c.keys.buckets + ":" + name), t.CellOf(c.keys.buckets + ":" + name);
      && Charges(attempt.cost, name, before.Reading(cfg, now).tokens - after.Reading(cfg, now).tokens)
      && (attempt.settles ==> MarkedThrough(after, attempt, name, now, now + c.settleWindowMs))
    case ConcurrencyLimit(name, _) =>
      var held := t.LedgerOf(c.keys.slots + ":" + name);
      && attempt.slotId in held.Members(now) && held.Members(now)[attempt.slotId] == now
      && attempt.slotId in held.Costs(now) && Charges(attempt.cost, name, held.Costs(now)[attempt.slotId])
    case NoLimit(_) => true
  }

  /** A settlement of the attempt finds its mark, with the amount it was charged, at any time before `until`. */
  ghost predicate MarkedThrough(cell: Cell, attempt: Attempt, name: string, now: int, until: int) {
    forall later :: now <= later < until ==>
      var mark := Live(cell.marks, attempt.slotId, later);
      mark.Some? && Charges(attempt.cost, name, mark.value.claimed)
  }

  /** The limit has been charged nothing: its bucket reads as before, and its ledger has lost lapsed slots at most. */
  ghost predicate LimitSpared(c: Client, limit: Limit, s: Store, t: Store, now: int) {
    match limit
    case RequestLimit(name, cfg) =>
      t.CellOf(c.keys.buckets + ":" + name).Reading(cfg, now) == s.CellOf(c.keys.buckets + ":" + name).Reading(cfg, now)
    case ConcurrencyLimit(name, _) =>
      var was, held := s.LedgerOf(c.keys.slots + ":" + name).Members(now), t.LedgerOf(c.keys.slots + ":" + name).Members(now);
      && (forall id :: id in held <==> id in was && was[id] > now - c.requestTtl)
      && (forall id :: id in held ==> held[id] == was[id])
    case NoLimit(_) => true
  }

  /** What a turn does to each of the client's limits. */
  ghost predicate TurnCharged(c: Client, attempt: Attempt, charged: bool, s: Store, t: Store, now: int) {
    forall i :: 0 <= i < |c.limits| ==>
      if charged then LimitCharged(c, attempt, c.limits[i], s, t, now) else LimitSpared(c, c.limits[i], s, t, now)
  }

  lemma BucketCharged(c: Client, attempt: Attempt, limit: Limit, spec: Spec, s: Store, t: Store, now: int)
    requires limit.RequestLimit? && limit.Usable() && StandsFor(c, attempt, spec, limit) && UnusableSpec(spec).None?
    requires AdmitsAlone(s, spec, now) && BucketLeft(s, t, spec, true, DAY_SECONDS, now)
    ensures LimitCharged(c, attempt, limit, s, t, now)
  {
    var cfg, key := limit.cfg, spec.key;
    var epochs: nat :| ClaimedAfter(s, t, spec, epochs, DAY_SECONDS, now);
    var bal, after := s.CellOf(key).Reading(cfg, now), t.CellOf(key);
    assert s.CellOf(key).(epochs := epochs).Reading(cfg, now) == bal;
    TtlIsPositive(cfg);
    assert after.Stored(now).Some? && after.Stored(now).value.bal == bal.(tokens := bal.tokens - spec.cost);
    SpentSettles(s, key, cfg, spec.cost, now);
  }

  lemma TtlIsPositive(cfg: Config)
    requires cfg.Usable()
    ensures BucketTtl(DAY_SECONDS, cfg) > 0
  {
  }

  /** A balance spent from after a refill reads as it is at that instant. */
  lemma SpentSettles(s: Store, key: string, cfg: Config, cost: real, now: int)
    requires cfg.Usable() && cfg.interval > 0 && cost >= 0.0
    ensures var bal := s.CellOf(key).Reading(cfg, now);
      var spent := bal.(tokens := bal.tokens - cost); Refill(spent, cfg, now) == spent
  {
    var b := s.CellOf(key).Stored(now);
    RefillGrows(if b.Some? then b.value.bal else Fresh(cfg, now), cfg, now);
    RefillSettles(if b.Some? then b.value.bal else Fresh(cfg, now), cfg, now);
  }

  lemma SlotCharged(c: Client, attempt: Attempt, limit: Limit, spec: Spec, s: Store, t: Store, now: int)
    requires limit.ConcurrencyLimit? && StandsFor(c, attempt, spec, limit) && UnusableSpec(spec).None?
    requires AdmitsAlone(s, spec, now) && LedgerLeft(s, t, spec, true, DAY_SECONDS, now)
    ensures LimitCharged(c, attempt, limit, s, t, now)
  {
  }

  lemma BucketSpared(c: Client, attempt: Attempt, limit: Limit, spec: Spec, s: Store, t: Store, now: int)
    requires limit.RequestLimit? && limit.Usable() && StandsFor(c, attempt, spec, limit) && UnusableSpec(spec).None?
    requires BucketLeft(s, t, spec, false, DAY_SECONDS, now)
    ensures LimitSpared(c, limit, s, t, now)
  {
    TtlIsPositive(limit.cfg);
    SpentSettles(s, spec.key, limit.cfg, 0.0, now);
  }

  lemma SlotSpared(c: Client, attempt: Attempt, limit: Limit, spec: Spec, s: Store, t: Store, now: int)
    requires limit.ConcurrencyLimit? && StandsFor(c, attempt, spec, limit)
    requires LedgerLeft(s, t, spec, false, DAY_SECONDS, now)
    ensures LimitSpared(c, limit, s, t, now)
  {
  }

  /** Where every budget was claimed, each limit has been charged its amount; where none was, each has been spared. */
  lemma BudgetsCharge(c: Client, attempt: Attempt, charged: bool, s: Store, t: Store, now: int)
    requires c.Valid() && Usable(c.Budgets(attempt)) && (charged ==> AllAdmit(s, c.Budgets(attempt), now))
    requires BucketsLeft(s, c.Budgets(attempt), t, charged, DAY_SECONDS, now)
    requires LedgersLeft(s, c.Budgets(attempt), t, charged, DAY_SECONDS, now)
    ensures TurnCharged(c, attempt, charged, s, t, now)
  {
    BudgetsAreLimits(c, attempt);
    forall i | 0 <= i < |c.limits|
      ensures if charged then LimitCharged(c, attempt, c.limits[i], s, t, now) else LimitSpared(c, c.limits[i], s, t, now)
    {
      if c.limits[i].Metered() {
        LimitInBudgets(c, attempt, charged, c.limits[i], s, t, now);
      }
    }
  }

  lemma LimitInBudgets(c: Client, attempt: Attempt, charged: bool, limit: Limit, s: Store, t: Store, now: int)
    requires OneForOne(c, attempt, c.Budgets(attempt), MeteredLimits(c.limits)) && limit in c.limits && limit.Metered()
    requires limit.Usable() && Usable(c.Budgets(attempt)) && (charged ==> AllAdmit(s, c.Budgets(attempt), now))
    requires BucketsLeft(s, c.Budgets(attempt), t, charged, DAY_SECONDS, now)
    requires LedgersLeft(s, c.Budgets(attempt), t, charged, DAY_SECONDS, now)
    ensures if charged then LimitCharged(c, attempt, limit, s, t, now) else LimitSpared(c, limit, s, t, now)
  {
    var specs, limits := c.Budgets(attempt), MeteredLimits(c.limits);
    assert limit in limits;
    var k :| 0 <= k < |limits| && limits[k] == limit;
    assert StandsFor(c, attempt, specs[k], limits[k]);
    if limit.RequestLimit? {
      if charged {
        BucketCharged(c, attempt, limit, specs[k], s, t, now);
      } else {
        BucketSpared(c, attempt, limit, specs[k], s, t, now);
      }
    } else if charged {
      SlotCharged(c, attempt, limit, specs[k], s, t, now);
    } else {
      SlotSpared(c, attempt, limit, specs[k], s, t, now);
    }
  }
}
