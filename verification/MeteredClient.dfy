/**
 * A metered client's turn: the checks on its cost, the one backend call that claims its
 * budgets, and the claim handed back when a freeze lands under it.
 */
module MeteredClient {
  import opened Numbers
  import opened Costs
  import opened LimitSpecs
  import opened TokenBucket
  import opened Buckets
  import opened Slots
  import opened Freeze
  import opened MultiLimit
  import opened AllOrNothing
  import opened ClaimRelease
  import opened TurnCharges
  import RefusalWait
  import opened MemberOrder
  import opened RequestQueue
  import opened MemoryBackend

  // ------------------------------------------------------- the one-limit shortcut

  /** Two stores whose budgets read alike under every key. */
  ghost predicate SameBudgets(s: Store, t: Store) {
    && s.epochs == t.epochs
    && (forall key :: s.CellOf(key) == t.CellOf(key))
    && (forall key :: s.LedgerOf(key) == t.LedgerOf(key))
  }

  datatype Claimed = Claimed(acquired: bool, waitTime: Option<int>, error: Option<SpecError>)
  {
    function Wait(): int { if waitTime.Some? then waitTime.value else 0 }
  }

  /** What a claim of several budgets answers, in the client's terms. */
  function Answer(result: MultiResult): Claimed {
    match result
    case AllAcquired => Claimed(true, None, None)
    case Refused(waitTime, _) => Claimed(false, Some(waitTime), None)
    case UnusableSpecs(error) => Claimed(false, None, Some(error))
  }

  function BucketAnswer(result: AcquireResult): Claimed {
    match result
    case Acquired(_) => Claimed(true, None, None)
    case Declined(waitTime, _) => Claimed(false, Some(waitTime), None)
    case Unusable(error) => Claimed(false, None, Some(OfBucket(error)))
  }

  function SlotAnswer(result: SlotResult): Claimed {
    match result
    case SlotAcquired(_) => Claimed(true, None, None)
    case SlotFull(_) => Claimed(false, None, None)
    case SlotUnusable(error) => Claimed(false, None, Some(OfSlot(error)))
  }

  /** `claimed` and `after` are what claiming the list by the general call comes to. */
  ghost predicate ClaimsAs(s: Store, specs: seq<Spec>, after: Store, claimed: Claimed, now: int) {
    var (t, result) := AcquireMultiLimit(s, specs, DAY_SECONDS, now);
    && SameBudgets(after, t)
    && claimed.acquired == Answer(result).acquired && claimed.error == Answer(result).error
    && (result.Refused? ==> result.waitTime == claimed.Wait())
  }

  /** The call for one bucket makes the decision the general call makes. */
  lemma SoleBucketClaim(s: Store, spec: Spec, now: int)
    requires spec.BucketSpec?
    ensures var (u, result) := AcquireIn(s, spec.key, spec.cost, spec.cfg, spec.mark, DAY_SECONDS, now);
      ClaimsAs(s, [spec], u, BucketAnswer(result), now)
  {
    OneBucketAlone(s, spec, DAY_SECONDS, now);
    var t, u := AcquireMultiLimit(s, [spec], DAY_SECONDS, now).0,
                AcquireIn(s, spec.key, spec.cost, spec.cfg, spec.mark, DAY_SECONDS, now).0;
    forall key ensures u.CellOf(key) == t.CellOf(key) {
      assert key != spec.key ==> t.CellOf(key) == s.CellOf(key).(epochs := t.epochs);
    }
    assert forall key :: u.LedgerOf(key) == t.LedgerOf(key);
  }

  /** And so does the call for one slot ledger. */
  lemma SoleSlotClaim(s: Store, spec: Spec, now: int)
    requires spec.SlotSpec?
    ensures var (u, result) := AcquireSlotIn(s, spec.key, spec.cost, spec.slotId, spec.slotCfg, DAY_SECONDS, now);
      ClaimsAs(s, [spec], u, SlotAnswer(result), now)
  {
    OneSlotAlone(s, spec, DAY_SECONDS, now);
    var t, u := AcquireMultiLimit(s, [spec], DAY_SECONDS, now).0,
                AcquireSlotIn(s, spec.key, spec.cost, spec.slotId, spec.slotCfg, DAY_SECONDS, now).0;
    assert forall key :: u.CellOf(key) == t.CellOf(key);
  }

  /** The general call's outcome for a request in progress; for any other a refusal that only reaps. */
  ghost predicate SlotClaimedBy(s: Store, spec: Spec, q: Queue, requestId: Text, after: Store, claimed: Claimed, now: int)
    requires spec.SlotSpec?
  {
    if BeingAdmitted(q, requestId, now) || UnusableSpec(spec).Some? then ClaimsAs(s, [spec], after, claimed, now)
    else claimed == Claimed(false, None, None) && after == s.ReapLedger(spec.key, now - spec.slotCfg.requestTtl, now)
  }

  /** What some other replica arms in the middle of this turn. */
  datatype Freezing = Freezing(until: real, probes: real, emptiesBucket: bool)

  datatype TurnResult =
    | TurnAcquired
    | TurnDeclined(waitTime: int)
    | ThrewFrozen
    | ThrewUnspendable(flaw: CostFlaw)
    | ThrewProblem(problem: CostProblem)

  /** Refused before anything is claimed: the cost is malformed, or no wait would help it. */
  predicate Refuses(result: TurnResult) { result.ThrewUnspendable? || result.ThrewProblem? }

  /** A sole slot ledger claims only for a request whose entry is still in progress. */
  ghost predicate NoLongerQueued(c: Client, q: Queue, attempt: Attempt, now: int) {
    |c.limits| == 1 && c.limits[0].ConcurrencyLimit? && !BeingAdmitted(q, attempt.requestId, now)
  }

  lemma HeldAs(s: Store, specs: seq<Spec>, after: Store, claimed: Claimed, now: int)
    requires Distinct(specs) && Usable(specs) && ClaimsAs(s, specs, after, claimed, now)
    ensures !claimed.acquired ==> claimed.Wait() == Answer(AcquireMultiLimit(s, specs, DAY_SECONDS, now).1).Wait()
    ensures claimed.error.None? && (claimed.acquired <==> AllAdmit(s, specs, now))
    ensures BucketsLeft(s, specs, after, claimed.acquired, DAY_SECONDS, now)
    ensures LedgersLeft(s, specs, after, claimed.acquired, DAY_SECONDS, now)
  {
    AcquiresAllOrNone(s, specs, DAY_SECONDS, now);
    var t := AcquireMultiLimit(s, specs, DAY_SECONDS, now).0;
    BucketsSame(s, specs, t, after, claimed.acquired, DAY_SECONDS, now);
    LedgersSame(s, specs, t, after, claimed.acquired, DAY_SECONDS, now);
  }

  /** What the turn leaves of every budget: all claimed as each would be alone, or none spent. */
  ghost predicate Outcome(s: Store, specs: seq<Spec>, t: Store, acquired: bool, now: int) {
    && Usable(specs)
    && BucketsLeft(s, specs, t, acquired, DAY_SECONDS, now)
    && LedgersLeft(s, specs, t, acquired, DAY_SECONDS, now)
  }

  ghost predicate AllFresh(s: Store, specs: seq<Spec>, now: int) {
    forall i :: 0 <= i < |specs| ==> FreshSlot(s, specs[i], now)
  }

  ghost predicate AllReadTheSame(s: Store, specs: seq<Spec>, u: Store, now: int) {
    forall i :: 0 <= i < |specs| ==> ReadsTheSame(s, u, specs[i], now)
  }

  lemma OutcomeSame(s: Store, specs: seq<Spec>, p: Store, q: Store, now: int)
    requires Outcome(s, specs, p, true, now) && q.(freezes := p.freezes) == p
    ensures Outcome(s, specs, q, true, now)
  {
    BucketsSame(s, specs, p, q, true, DAY_SECONDS, now);
    LedgersSame(s, specs, p, q, true, DAY_SECONDS, now);
  }

  /** A sole slot ledger's claim for a request that is gone reaps the ledger and no more. */
  ghost predicate TurnedAway(s: Store, specs: seq<Spec>, t: Store, now: int) {
    && |specs| == 1 && specs[0].SlotSpec?
    && t == s.ReapLedger(specs[0].key, now - specs[0].slotCfg.requestTtl, now)
  }

  lemma TurnedAwayOutcome(s: Store, specs: seq<Spec>, t: Store, now: int)
    requires Usable(specs) && TurnedAway(s, specs, t, now)
    ensures Outcome(s, specs, t, false, now)
  {
    assert NamesLedger(specs, specs[0].key);
    assert forall key :: key != specs[0].key ==> t.LedgerOf(key) == s.LedgerOf(key);
  }

  lemma SlotNamesNoWait(s: Store, specs: seq<Spec>, now: int)
    requires Usable(specs) && |specs| == 1 && specs[0].SlotSpec?
    ensures Answer(AcquireMultiLimit(s, specs, DAY_SECONDS, now).1).Wait() == 0
  {
    assert specs == [specs[0]];
    OneSlotPlan(s, specs[0], now);
  }

  /** As the general call claims, but that a sole slot ledger turns away a request no longer in progress. */
  ghost predicate ClaimedBy(c: Client, attempt: Attempt, q: Queue, s: Store, after: Store, claimed: Claimed, now: int) {
    if NoLongerQueued(c, q, attempt, now)
    then claimed == Claimed(false, None, None) && TurnedAway(s, c.Budgets(attempt), after, now)
    else ClaimsAs(s, c.Budgets(attempt), after, claimed, now)
  }

  lemma SoleBudget(c: Client, attempt: Attempt)
    requires |c.limits| == 1 && c.limits[0].Metered()
    ensures c.Budgets(attempt) == c.SpecsOf(c.limits[0], attempt)
    ensures c.Valid() && Spendable(attempt.cost) ==> Usable(c.Budgets(attempt))
  {
    assert c.Specs(attempt, 0) == [];
    if c.Valid() && Spendable(attempt.cost) {
      SpendableIsUsable(c, attempt, 1);
    }
  }

  lemma ClaimOutcome(s: Store, c: Client, attempt: Attempt, q: Queue, after: Store, claimed: Claimed, now: int)
    requires c.Valid() && Spendable(attempt.cost)
    requires ClaimedBy(c, attempt, q, s, after, claimed, now)
    ensures claimed.acquired <==> AllAdmit(s, c.Budgets(attempt), now) && !NoLongerQueued(c, q, attempt, now)
    ensures claimed.error.None? && Outcome(s, c.Budgets(attempt), after, claimed.acquired, now)
    ensures !claimed.acquired ==>
      claimed.Wait() == Answer(AcquireMultiLimit(s, c.Budgets(attempt), DAY_SECONDS, now).1).Wait()
  {
    LimitSpecsAreDistinct(c, attempt);
    SpendableIsUsable(c, attempt, |c.limits|);
    if NoLongerQueued(c, q, attempt, now) {
      TurnedAwayOutcome(s, c.Budgets(attempt), after, now);
      SlotNamesNoWait(s, c.Budgets(attempt), now);
    } else {
      HeldAs(s, c.Budgets(attempt), after, claimed, now);
    }
  }

  /** What a turn not thrown out leaves, and the wait a declined one is told. */
  ghost predicate Held(c: Client, attempt: Attempt, q: Queue, s: Store, t: Store, result: TurnResult, now: int) {
    var specs := c.Budgets(attempt);
    && (result.TurnAcquired? || result.TurnDeclined? ==>
          && (result.TurnAcquired? <==> AllAdmit(s, specs, now) && !NoLongerQueued(c, q, attempt, now))
          && Outcome(s, specs, t, result.TurnAcquired?, now))
    && (result.TurnDeclined? ==>
          result.waitTime == c.DeclineWait(Answer(AcquireMultiLimit(s, specs, DAY_SECONDS, now).1).Wait()))
  }

  /** So every limit has been charged what the attempt names for it, or none has been charged at all. */
  lemma HeldCharges(c: Client, attempt: Attempt, q: Queue, s: Store, t: Store, result: TurnResult, now: int)
    requires c.Valid() && Held(c, attempt, q, s, t, result, now) && (result.TurnAcquired? || result.TurnDeclined?)
    ensures TurnCharged(c, attempt, result.TurnAcquired?, s, t, now)
  {
    BudgetsCharge(c, attempt, result.TurnAcquired?, s, t, now);
  }

  /** A bucket that is short is always told to wait, were it for less than an interval. */
  lemma ShortBucketWaits(s: Store, spec: Spec, now: int)
    requires UnusableSpec(spec).None? && RefusalWait.Declines(s, spec, now) && spec.cfg.interval > 0
    ensures RefusalWait.WaitOf(s, spec, now) > 0
  {
    var cfg, stored := spec.cfg, s.CellOf(spec.key).Stored(now);
    var was := if stored.Some? then stored.value.bal else Fresh(cfg, now);
    var missing := spec.cost - Refill(was, cfg, now).tokens;
    if was.lastUpdate <= now {
      RefillIsCurrent(was, cfg, now);
    }
    assert Min(cfg.maxTokens, spec.cost) * BALANCE_TOLERANCE >= 0.0;
    Divide(0.0, missing, cfg.tokensToAdd);
    Times(1, Ceil(missing / cfg.tokensToAdd), cfg.interval);
  }

  /** A short budget is a request limit's, and a full one a concurrency limit's. */
  lemma BudgetKinds(c: Client, attempt: Attempt, spec: Spec)
    requires c.Valid() && spec in c.Budgets(attempt)
    ensures spec.BucketSpec? ==> spec.cfg.interval > 0
    ensures spec.SlotSpec? ==> exists i :: 0 <= i < |c.limits| && c.limits[i].ConcurrencyLimit?
  {
    BudgetsAreLimits(c, attempt);
    var specs, limits := c.Budgets(attempt), MeteredLimits(c.limits);
    var k :| 0 <= k < |specs| && specs[k] == spec;
    assert StandsFor(c, attempt, specs[k], limits[k]) && limits[k] in limits && limits[k] in c.limits;
  }

  /**
   * A declined turn is told to wait, and never for nothing: the longest wait of the buckets
   * that are short, or, when none is, the lease of the slots it must outlast.
   */
  lemma DeclineNamesAWait(c: Client, attempt: Attempt, q: Queue, s: Store, t: Store, result: TurnResult, now: int)
    requires c.Valid() && Held(c, attempt, q, s, t, result, now) && result.TurnDeclined?
    ensures result.waitTime > 0
    ensures var specs := c.Budgets(attempt);
      if RefusalWait.NoneDeclines(s, specs, now) then result.waitTime == c.requestTtl
      else exists key :: RefusalWait.LongestWait(s, specs, now, result.waitTime, key)
  {
    var specs := c.Budgets(attempt);
    LimitSpecsAreDistinct(c, attempt);
    if NoLongerQueued(c, q, attempt, now) {
      SoleBudget(c, attempt);
      SlotNamesNoWait(s, specs, now);
    } else {
      RefusalWait.RefusalReport(s, specs, DAY_SECONDS, now);
      var refusal := AcquireMultiLimit(s, specs, DAY_SECONDS, now).1;
      if RefusalWait.NoneDeclines(s, specs, now) {
        var i :| 0 <= i < |specs| && specs[i].SlotSpec?;
        BudgetKinds(c, attempt, specs[i]);
      } else {
        var i :| 0 <= i < |specs| && RefusalWait.Declines(s, specs[i], now) && RefusalWait.WaitOf(s, specs[i], now) == refusal.waitTime;
        BudgetKinds(c, attempt, specs[i]);
        ShortBucketWaits(s, specs[i], now);
      }
    }
  }

  /** Unless a freeze emptied the buckets, a claim handed back leaves every budget reading as before. */
  ghost predicate HandedBack(c: Client, attempt: Attempt, landing: Option<Freezing>, s: Store, u: Store, now: int) {
    && !CanProcess(u.FreezeOf(c.keys.freeze), now)
    && (LeavesBuckets(s, c.keys.freeze, landing, now) && AllFresh(s, c.Budgets(attempt), now) ==>
          AllReadTheSame(s, c.Budgets(attempt), u, now))
  }

  /** Either nothing meters the client's requests, or the cost passes both checks. */
  ghost predicate Payable(c: Client, cost: Cost) {
    MeteredLimits(c.limits) == [] || (Spendable(cost) && Admissible(cost, MeteredLimits(c.limits)))
  }

  lemma ReleaseKeepsFreezes(s: Store, specs: seq<Spec>, now: int)
    ensures ReleaseMultiLimit(s, specs, now).freezes == s.freezes
    decreases |specs|
  {
    if specs != [] {
      ReleaseKeepsFreezes(s, specs[..|specs| - 1], now);
    }
  }

  lemma ClaimHandedBack(s: Store, c: Client, attempt: Attempt, after: Store, landing: Option<Freezing>, now: int)
    requires c.Valid() && Outcome(s, c.Budgets(attempt), after, true, now) && AllAdmit(s, c.Budgets(attempt), now)
    requires after.freezes == s.freezes
    requires !CanProcess(Landed(after, c.keys.freeze, landing, now).FreezeOf(c.keys.freeze), now)
    ensures HandedBack(c, attempt, landing, s,
      ReleaseMultiLimit(Landed(after, c.keys.freeze, landing, now), c.Budgets(attempt), now), now)
  {
    LimitSpecsAreDistinct(c, attempt);
    OneFreeze(c, attempt, |c.limits|);
    ReleaseKeepsFreezes(Landed(after, c.keys.freeze, landing, now), c.Budgets(attempt), now);
    if LeavesBuckets(s, c.keys.freeze, landing, now) && AllFresh(s, c.Budgets(attempt), now) {
      FrozenHandsBack(s, c.Budgets(attempt), after, c.keys.freeze, landing, now);
    }
  }

  lemma {:induction false} NoBudgets(c: Client, attempt: Attempt, n: nat)
    requires n <= |c.limits| && MeteredLimits(c.limits) == []
    ensures c.Specs(attempt, n) == []
  {
    if n > 0 {
      NoBudgets(c, attempt, n - 1);
      assert c.limits[n - 1] in c.limits && c.limits[n - 1] !in MeteredLimits(c.limits);
    }
  }

  lemma Unmetered(s: Store, c: Client, attempt: Attempt, now: int)
    requires MeteredLimits(c.limits) == []
    ensures c.Budgets(attempt) == [] && Outcome(s, [], s, true, now) && AllAdmit(s, [], now)
    ensures forall q :: !NoLongerQueued(c, q, attempt, now)
  {
    NoBudgets(c, attempt, |c.limits|);
    assert |c.limits| == 1 ==> c.limits[0] in c.limits;
  }

  /** Under a freeze that leaves the buckets as they are, the claim is handed back whole. */
  lemma FrozenHandsBack(s: Store, specs: seq<Spec>, after: Store, freezeKey: string, landing: Option<Freezing>,
        now: int)
    requires Distinct(specs) && Usable(specs) && AllAdmit(s, specs, now) && after.freezes == s.freezes
    requires forall i :: 0 <= i < |specs| ==> specs[i].freezeKey == freezeKey && FreshSlot(s, specs[i], now)
    requires BucketsLeft(s, specs, after, true, DAY_SECONDS, now) && LedgersLeft(s, specs, after, true, DAY_SECONDS, now)
    requires LeavesBuckets(s, freezeKey, landing, now)
    ensures var frozen := Landed(after, freezeKey, landing, now);
      forall i :: 0 <= i < |specs| ==> ReadsTheSame(s, ReleaseMultiLimit(frozen, specs, now), specs[i], now)
  {
    var frozen := Landed(after, freezeKey, landing, now);
    assert forall key :: frozen.CellOf(key) == after.CellOf(key) && frozen.LedgerOf(key) == after.LedgerOf(key);
    BucketsSame(s, specs, after, frozen, true, DAY_SECONDS, now);
    LedgersSame(s, specs, after, frozen, true, DAY_SECONDS, now);
    assert !Emptied(frozen.FreezeOf(freezeKey), now) by {
      assert after.FreezeOf(freezeKey) == s.FreezeOf(freezeKey);
    }
    ReleasesEach(frozen, specs, now);
    HandedBackEach(s, frozen, specs, ReleaseMultiLimit(frozen, specs, now), DAY_SECONDS, now);
  }

  /** The store once another replica has armed a freeze, if it has. */
  function Landed(s: Store, key: string, landing: Option<Freezing>, now: int): Store {
    if landing.None? then s
    else s.PutFreeze(key, Arm(s.FreezeOf(key), landing.value.until, landing.value.probes, landing.value.emptiesBucket, now))
  }

  /** A freeze that lands with time left is in force for whoever looks next. */
  lemma LandedBlocks(s: Store, key: string, landing: Option<Freezing>, now: int)
    requires landing.Some? && now < Deadline(landing.value.until)
    ensures !CanProcess(Landed(s, key, landing, now).FreezeOf(key), now)
  {
    var c := s.FreezeOf(key);
    var armed := Arm(c, landing.value.until, landing.value.probes, landing.value.emptiesBucket, now);
    TtlCoversWindow(armed.freeze.value.value.state, now);
    if c.Stored(now).Some? && c.Stored(now).value.state.frozenUntil as real > landing.value.until {
      StorableGrows(landing.value.until, c.Stored(now).value.state.frozenUntil as real, -MAX_SAFE_INTEGER);
    }
  }

  /** No freeze that stands or lands has emptied the buckets. */
  ghost predicate LeavesBuckets(s: Store, key: string, landing: Option<Freezing>, now: int) {
    !Emptied(s.FreezeOf(key), now) && (landing.Some? ==> !landing.value.emptiesBucket)
  }

  // ---------------------------------------------------- handing back what was claimed

  /** An attempt with no record of its claims counts as having claimed everything. */
  predicate WasClaimed(claimedKeys: Option<seq<string>>, key: string) {
    claimedKeys.Some? ==> key in claimedKeys.value
  }

  function ClaimedOf(specs: seq<Spec>, claimedKeys: Option<seq<string>>): seq<Spec>
    decreases |specs|
  {
    if specs == [] then []
    else
      var pre, last := ClaimedOf(specs[..|specs| - 1], claimedKeys), specs[|specs| - 1];
      if WasClaimed(claimedKeys, last.key) then pre + [last] else pre
  }

  predicate StartsWith(key: string, prefix: string) { prefix <= key }

  /** A ledger the attempt claimed from that no limit names any longer. */
  ghost predicate Stale(specs: seq<Spec>, prefix: string, key: string) {
    StartsWith(key, prefix) && forall i :: 0 <= i < |specs| ==> specs[i].key != key
  }

  ghost function ReleaseStale(s: Store, keys: seq<string>, specs: seq<Spec>, prefix: string, id: string, now: int): Store
    decreases |keys|
  {
    if keys == [] then s
    else
      var pre, last := ReleaseStale(s, keys[..|keys| - 1], specs, prefix, id, now), keys[|keys| - 1];
      if Stale(specs, prefix, last) then ReleaseIn(pre, last, id, now) else pre
  }

  /** All that a release does: the slots of stale ledgers, then the budgets claimed from. */
  ghost function Unclaim(s: Store, specs: seq<Spec>, prefix: string, claimedKeys: Option<seq<string>>, id: string, now: int): Store {
    var keys := if claimedKeys.Some? then claimedKeys.value else [];
    ReleaseMultiLimit(ReleaseStale(s, keys, specs, prefix, id, now), ClaimedOf(specs, claimedKeys), now)
  }

  function KeysOf(specs: seq<Spec>): seq<string> {
    seq(|specs|, i requires 0 <= i < |specs| => specs[i].key)
  }

  lemma {:induction false} StaleReleased(s: Store, keys: seq<string>, specs: seq<Spec>, prefix: string, id: string,
        now: int)
    ensures var t := ReleaseStale(s, keys, specs, prefix, id, now);
      && t.cells == s.cells && t.epochs == s.epochs && t.freezes == s.freezes
      && forall key :: t.LedgerOf(key) ==
           if key in keys && Stale(specs, prefix, key) then ReleaseSlot(s.LedgerOf(key), id, now) else s.LedgerOf(key)
    decreases |keys|
  {
    if keys != [] {
      var n := |keys| - 1;
      StaleReleased(s, keys[..n], specs, prefix, id, now);
      assert keys == keys[..n] + [keys[n]];
      ReleasedTwice(s.LedgerOf(keys[n]), id, now);
    }
  }

  lemma ReleasedTwice(l: Ledger, id: string, now: int)
    ensures ReleaseSlot(ReleaseSlot(l, id, now), id, now) == ReleaseSlot(l, id, now)
  {
    assert l.slots.Some? ==> l.slots.value.value - {id} - {id} == l.slots.value.value - {id};
    assert l.costs.Some? ==> l.costs.value.value - {id} - {id} == l.costs.value.value - {id};
  }

  lemma {:induction false} ClaimedOfFilters(specs: seq<Spec>, claimedKeys: Option<seq<string>>)
    ensures var claimed := ClaimedOf(specs, claimedKeys);
      && |claimed| <= |specs| && (claimed == specs || |claimed| < |specs|)
      && (forall spec :: spec in claimed <==> spec in specs && WasClaimed(claimedKeys, spec.key))
    decreases |specs|
  {
    if specs != [] {
      var pre, last := specs[..|specs| - 1], specs[|specs| - 1];
      ClaimedOfFilters(pre, claimedKeys);
      assert specs == pre + [last];
    }
  }

  lemma ClaimedOfOne(c: Client, attempt: Attempt, claimedKeys: Option<seq<string>>)
    requires |c.limits| == 1 && c.limits[0].Metered() ==> ClaimedOf(c.Budgets(attempt), claimedKeys) != []
    ensures |c.limits| == 1 && c.limits[0].Metered() ==> ClaimedOf(c.Budgets(attempt), claimedKeys) == c.Budgets(attempt)
  {
    if |c.limits| == 1 && c.limits[0].Metered() {
      SoleBudget(c, attempt);
      ClaimedOfFilters(c.Budgets(attempt), claimedKeys);
    }
  }

  lemma {:induction false} ClaimedAreDistinct(specs: seq<Spec>, claimedKeys: Option<seq<string>>)
    requires Distinct(specs)
    ensures Distinct(ClaimedOf(specs, claimedKeys))
    decreases |specs|
  {
    if specs != [] {
      var pre, last := specs[..|specs| - 1], specs[|specs| - 1];
      var claimed := ClaimedOf(pre, claimedKeys);
      ClaimedAreDistinct(pre, claimedKeys);
      ClaimedOfFilters(pre, claimedKeys);
      forall i | 0 <= i < |claimed| ensures claimed[i].key != last.key || claimed[i].BucketSpec? != last.BucketSpec? {
        assert claimed[i] in pre;
      }
    }
  }

  lemma ReleasedNow(s: Store, t: Store, u: Store, claimed: seq<Spec>, spec: Spec, now: int)
    requires AllReleased(t, claimed, u, now) && spec in claimed && t.LedgerOf(spec.key) == s.LedgerOf(spec.key)
    requires t.cells == s.cells && t.epochs == s.epochs && t.freezes == s.freezes
    ensures Released(s, u, spec, now)
  {
    var i :| 0 <= i < |claimed| && claimed[i] == spec;
    assert Released(t, u, claimed[i], now);
  }

  /**
   * A claim handed back under limits that have changed since: every budget claimed from
   * and still named is released, a ledger no limit names gives up the slot, and a bucket
   * or ledger the attempt never drew on is left alone.
   */
  lemma UnclaimsEach(s: Store, specs: seq<Spec>, prefix: string, keys: seq<string>, id: string, now: int)
    requires Distinct(specs)
    ensures var u := Unclaim(s, specs, prefix, Some(keys), id, now);
      && (forall spec :: spec in specs && spec.key in keys ==> Released(s, u, spec, now))
      && (forall key :: key in keys && Stale(specs, prefix, key) ==> u.LedgerOf(key) == ReleaseSlot(s.LedgerOf(key), id, now))
      && (forall key :: key !in keys ==> u.CellOf(key) == s.CellOf(key) && u.LedgerOf(key) == s.LedgerOf(key))
  {
    var claimed, t := ClaimedOf(specs, Some(keys)), ReleaseStale(s, keys, specs, prefix, id, now);
    ClaimedOfFilters(specs, Some(keys));
    ClaimedAreDistinct(specs, Some(keys));
    StaleReleased(s, keys, specs, prefix, id, now);
    ReleasesEach(t, claimed, now);
    UnclaimedApart(s, t, ReleaseMultiLimit(t, claimed, now), specs, claimed, prefix, keys, id, now);
  }

  lemma UnclaimedApart(s: Store, t: Store, u: Store, specs: seq<Spec>, claimed: seq<Spec>, prefix: string,
        keys: seq<string>, id: string, now: int)
    requires t.cells == s.cells && t.epochs == s.epochs && t.freezes == s.freezes
    requires forall key ::
      t.LedgerOf(key)
        == if key in keys && Stale(specs, prefix, key) then ReleaseSlot(s.LedgerOf(key), id, now) else s.LedgerOf(key)
    requires forall spec :: spec in claimed <==> spec in specs && spec.key in keys
    requires AllReleased(t, claimed, u, now)
    ensures forall spec :: spec in specs && spec.key in keys ==> Released(s, u, spec, now)
    ensures forall key :: key in keys && Stale(specs, prefix, key) ==> u.LedgerOf(key) == ReleaseSlot(s.LedgerOf(key), id, now)
    ensures forall key :: key !in keys ==> u.CellOf(key) == s.CellOf(key) && u.LedgerOf(key) == s.LedgerOf(key)
  {
    forall spec | spec in specs && spec.key in keys ensures Released(s, u, spec, now) {
      assert !Stale(specs, prefix, spec.key);
      ReleasedNow(s, t, u, claimed, spec, now);
    }
    forall key | key !in keys || Stale(specs, prefix, key)
      ensures !NamesLedger(claimed, key) && (key !in keys ==> !NamesBucket(claimed, key))
    {
      assert forall i :: 0 <= i < |claimed| ==> claimed[i] in claimed;
    }
  }

  lemma {:induction false} AllClaimed(specs: seq<Spec>, keys: seq<string>)
    requires forall i :: 0 <= i < |specs| ==> specs[i].key in keys
    ensures ClaimedOf(specs, Some(keys)) == specs
    decreases |specs|
  {
    if specs != [] {
      AllClaimed(specs[..|specs| - 1], keys);
    }
  }

  lemma {:induction false} NoneStale(s: Store, keys: seq<string>, specs: seq<Spec>, prefix: string, id: string, now: int)
    requires forall key :: key in keys ==> key in KeysOf(specs)
    ensures ReleaseStale(s, keys, specs, prefix, id, now) == s
    decreases |keys|
  {
    if keys != [] {
      NoneStale(s, keys[..|keys| - 1], specs, prefix, id, now);
      assert keys[|keys| - 1] in keys;
      var i :| 0 <= i < |specs| && KeysOf(specs)[i] == keys[|keys| - 1];
      assert specs[i].key == keys[|keys| - 1];
    }
  }

  lemma {:induction false} ReleaseIgnoresMarks(s: Store, specs: seq<Spec>, attempt: Attempt, settleWindowMs: int, now: int)
    ensures ReleaseMultiLimit(s, WithMarks(specs, attempt, settleWindowMs), now) == ReleaseMultiLimit(s, specs, now)
    decreases |specs|
  {
    if specs != [] {
      var pre := specs[..|specs| - 1];
      ReleaseIgnoresMarks(s, pre, attempt, settleWindowMs, now);
      var marked := WithMarks(specs, attempt, settleWindowMs);
      assert marked[..|marked| - 1] == WithMarks(pre, attempt, settleWindowMs);
    }
  }

  /** Handed back at once, under the limits it was made under, a claim goes back whole. */
  lemma UnclaimsWhole(s: Store, c: Client, attempt: Attempt, prefix: string, now: int)
    ensures var unmarked := c.Budgets(attempt.(settles := false));
      Unclaim(s, unmarked, prefix, Some(KeysOf(c.Budgets(attempt))), attempt.slotId, now)
        == ReleaseMultiLimit(s, c.Budgets(attempt), now)
  {
    var unmarked, specs := c.Budgets(attempt.(settles := false)), c.Budgets(attempt);
    MarkedBudgets(c, attempt, |c.limits|);
    assert KeysOf(specs) == KeysOf(unmarked);
    assert forall i :: 0 <= i < |unmarked| ==> unmarked[i].key == KeysOf(unmarked)[i];
    AllClaimed(unmarked, KeysOf(specs));
    NoneStale(s, KeysOf(specs), unmarked, prefix, attempt.slotId, now);
    ReleaseIgnoresMarks(s, unmarked, attempt, c.settleWindowMs, now);
  }

  class TurnTaker {
    const client: Client
    const backend: Backend

    constructor (client: Client, backend: Backend)
      ensures this.client == client && this.backend == backend
    {
      this.client, this.backend := client, backend;
    }

    /**
     * The list a claim or a release is made of. A claim has none if its cost leaves out a
     * metered limit; to a release that limit gave zero.
     */
    method GetLimitSpecs(attempt: Attempt, forRelease: bool) returns (specs: Option<seq<Spec>>)
      ensures specs == if forRelease || client.Named(attempt.cost)
        then Some(client.Budgets(attempt.(settles := false))) else None
      ensures specs.Some? <==> forRelease || NamesAll(attempt.cost, client.limits)
      ensures specs.Some? ==> OneForOne(client, attempt.(settles := false), specs.value, MeteredLimits(client.limits))
    {
      var found := [];
      for i := 0 to |client.limits|
        invariant found == client.Specs(attempt.(settles := false), i)
        invariant forRelease || forall j :: 0 <= j < i && client.limits[j].Metered() ==>
          CostFor(attempt.cost, client.limits[j].name).Some?
      {
        var limit := client.limits[i];
        if limit.Metered() {
          var amount := if forRelease then Some(ClaimedAmount(attempt.cost, limit.name)) else CostFor(attempt.cost, limit.name);
          if amount.None? {
            assert limit in client.limits;
            return None;
          }
          if limit.RequestLimit? {
            found := found + [BucketSpec(client.keys.buckets + ":" + limit.name, client.keys.freeze, amount.value, limit.cfg, None)];
          } else {
            found := found + [SlotSpec(client.keys.slots + ":" + limit.name, client.keys.freeze, amount.value,
              SlotConfig(limit.maxConcurrency, client.requestTtl), attempt.slotId)];
          }
        }
      }
      BudgetsAreLimits(client, attempt.(settles := false));
      return Some(found);
    }

    method ClaimBucket(spec: Spec, now: int) returns (claimed: Claimed)
      requires spec.BucketSpec?
      modifies backend`cells, backend`epochs, backend`ledgers
      ensures ClaimsAs(old(backend.Contents()), [spec], backend.Contents(), claimed, now)
    {
      SoleBucketClaim(backend.Contents(), spec, now);
      var result := backend.AcquireTokens(spec.key, spec.cost, spec.cfg, spec.mark, DAY_SECONDS, now);
      return BucketAnswer(result);
    }

    method ClaimSlot(spec: Spec, requestId: Text, now: int) returns (claimed: Claimed)
      requires spec.SlotSpec?
      modifies backend`cells, backend`epochs, backend`ledgers
      ensures SlotClaimedBy(old(backend.Contents()), spec, backend.queue.Contents(), requestId, backend.Contents(), claimed, now)
    {
      var result := backend.AcquireQueuedConcurrency(spec.key, requestId, spec.cost, spec.slotId, spec.slotCfg, now);
      claimed := SlotAnswer(result);
      if BeingAdmitted(backend.queue.Contents(), requestId, now) || UnusableSpec(spec).Some? {
        SoleSlotClaim(old(backend.Contents()), spec, now);
      }
    }

    /** A client with one limit goes by that budget's own, cheaper call. */
    method ClaimSole(spec: Spec, attempt: Attempt, now: int) returns (claimed: Claimed)
      requires |client.limits| == 1 && client.Budgets(attempt) == [spec] && UnusableSpec(spec).None?
      requires spec.BucketSpec? <==> client.limits[0].RequestLimit?
      requires spec.SlotSpec? <==> client.limits[0].ConcurrencyLimit?
      modifies backend`cells, backend`epochs, backend`ledgers
      ensures ClaimedBy(client, attempt, backend.queue.Contents(), old(backend.Contents()), backend.Contents(), claimed, now)
    {
      if spec.BucketSpec? {
        claimed := ClaimBucket(spec, now);
      } else {
        claimed := ClaimSlot(spec, attempt.requestId, now);
      }
    }

    /** The list a claim is made of, with the marks of an attempt that will be settled. */
    method MarkedSpecs(attempt: Attempt) returns (specs: seq<Spec>)
      requires client.Named(attempt.cost)
      ensures specs == client.Budgets(attempt)
    {
      var found := GetLimitSpecs(attempt, false);
      specs := WithMarks(found.value, attempt, client.settleWindowMs);
      MarkedBudgets(client, attempt, |client.limits|);
    }

    /** One budget or several, the outcome is the general call's. */
    method Claim(attempt: Attempt, now: int) returns (claimed: Claimed, claimedKeys: seq<string>)
      requires client.Valid() && Spendable(attempt.cost) && client.Named(attempt.cost)
      modifies backend`cells, backend`epochs, backend`ledgers
      ensures claimedKeys == KeysOf(client.Budgets(attempt))
      ensures ClaimedBy(client, attempt, backend.queue.Contents(), old(backend.Contents()), backend.Contents(), claimed, now)
    {
      var specs := MarkedSpecs(attempt);
      claimedKeys := KeysOf(specs);
      if |client.limits| == 1 && client.limits[0].Metered() {
        SoleBudget(client, attempt);
        claimed := ClaimSole(specs[0], attempt, now);
        return;
      }
      var result := backend.AcquireMultiLimit(specs, DAY_SECONDS, now);
      claimed := Answer(result);
    }

    /** Gives up the slots held in ledgers the limits no longer name. */
    method ReleaseStaleSlots(claimedKeys: Option<seq<string>>, specs: seq<Spec>, slotId: string, now: int)
      modifies backend`cells, backend`epochs, backend`ledgers
      ensures backend.Contents() == ReleaseStale(old(backend.Contents()),
        if claimedKeys.Some? then claimedKeys.value else [], specs, client.keys.slots + ":", slotId, now)
    {
      if claimedKeys.None? {
        return;
      }
      var keys, prefix := claimedKeys.value, client.keys.slots + ":";
      var current := set spec | spec in specs :: spec.key;
      for i := 0 to |keys|
        invariant backend.Contents() == ReleaseStale(old(backend.Contents()), keys[..i], specs, prefix, slotId, now)
      {
        assert keys[..i + 1][..i] == keys[..i];
        assert Stale(specs, prefix, keys[i]) <==> StartsWith(keys[i], prefix) && keys[i] !in current by {
          assert forall k :: 0 <= k < |specs| ==> specs[k] in specs && specs[k].key in current;
        }
        if StartsWith(keys[i], prefix) && keys[i] !in current {
          backend.ReleaseSlot(keys[i], slotId, now);
        }
      }
      assert keys[..|keys|] == keys;
    }

    /** One budget by its own call, several by the general one. */
    method ReleaseBudgets(claimed: seq<Spec>, ghost attempt: Attempt, now: int)
      requires |client.limits| == 1 && client.limits[0].Metered() ==> claimed == client.Budgets(attempt)
      modifies backend`cells, backend`epochs, backend`ledgers
      ensures backend.Contents() == MultiLimit.ReleaseMultiLimit(old(backend.Contents()), claimed, now)
    {
      if |client.limits| == 1 && client.limits[0].Metered() {
        SoleBudget(client, attempt);
        assert claimed == [claimed[0]] && claimed[..0] == [];
        assert MultiLimit.ReleaseMultiLimit(backend.Contents(), claimed[..0], now) == backend.Contents();
        if client.limits[0].RequestLimit? {
          backend.CreditTokens(claimed[0].key, claimed[0].cost, client.limits[0].cfg.maxTokens, client.keys.freeze, now);
        } else {
          backend.ReleaseSlot(claimed[0].key, claimed[0].slotId, now);
        }
      } else {
        backend.ReleaseMultiLimit(claimed, now);
      }
    }

    /** Stale ledgers first, then whichever of today's budgets were claimed. */
    method ReleaseClaim(attempt: Attempt, claimedKeys: Option<seq<string>>, now: int)
      modifies backend`cells, backend`epochs, backend`ledgers
      ensures backend.Contents() == Unclaim(old(backend.Contents()), client.Budgets(attempt.(settles := false)),
        client.keys.slots + ":", claimedKeys, attempt.slotId, now)
    {
      var found := GetLimitSpecs(attempt, true);
      ReleaseStaleSlots(claimedKeys, found.value, attempt.slotId, now);
      var claimed := ClaimedOf(found.value, claimedKeys);
      if claimed != [] {
        ClaimedOfOne(client, attempt.(settles := false), claimedKeys);
        ReleaseBudgets(claimed, attempt.(settles := false), now);
      }
    }

    /** Another replica's freeze lands, if one does, and this client looks. */
    method LandAndLook(landing: Option<Freezing>, now: int) returns (canProcess: bool)
      modifies backend`freezes
      ensures backend.Contents() == Landed(old(backend.Contents()), client.keys.freeze, landing, now)
      ensures canProcess == CanProcess(backend.Contents().FreezeOf(client.keys.freeze), now)
    {
      if landing.Some? {
        var _ := backend.ArmFreeze(client.keys.freeze, landing.value.until, landing.value.probes, landing.value.emptiesBucket, now);
      }
      var probing, until;
      canProcess, probing, until := backend.CanProcessRequest(client.keys.freeze, now);
    }

    /** The claim, and its return if a freeze lands before the look after it. */
    method ClaimTurn(attempt: Attempt, landing: Option<Freezing>, now: int) returns (result: TurnResult)
      requires client.Valid() && Spendable(attempt.cost) && client.Named(attempt.cost)
      modifies backend
      ensures !Refuses(result)
      ensures Held(client, attempt, backend.queue.Contents(), old(backend.Contents()), backend.Contents(), result, now)
      ensures result.ThrewFrozen? ==>
        HandedBack(client, attempt, landing, old(backend.Contents()), backend.Contents(), now)
      ensures landing.Some? && now < Deadline(landing.value.until) ==> !result.TurnAcquired?
    {
      ghost var s, specs := backend.Contents(), client.Budgets(attempt);
      var claimed, claimedKeys := Claim(attempt, now);
      ghost var after := backend.Contents();
      // A valid client's limits and a spendable cost leave the backend nothing to object to.
      ClaimOutcome(s, client, attempt, backend.queue.Contents(), after, claimed, now);
      if !claimed.acquired {
        return TurnDeclined(client.DeclineWait(claimed.Wait()));
      }
      var canProcess := LandAndLook(landing, now);
      if landing.Some? && now < Deadline(landing.value.until) {
        LandedBlocks(after, client.keys.freeze, landing, now);
      }
      if canProcess {
        OutcomeSame(s, specs, after, backend.Contents(), now);
        return TurnAcquired;
      }
      UnclaimsWhole(backend.Contents(), client, attempt, client.keys.slots + ":", now);
      ReleaseClaim(attempt, Some(claimedKeys), now);
      ClaimHandedBack(s, client, attempt, after, landing, now);
      return ThrewFrozen;
    }

    /**
     * One attempt's turn. Acquired, it holds every budget, each claimed as it would be
     * alone, at the amount the attempt names for that limit; declined, it has spent none. A
     * cost no wait would help is refused with
     * nothing claimed. A freeze that lands between the claim and the look after it has
     * the whole claim handed back: unless it emptied the buckets, any later claim reads
     * what it would have read.
     */
    method TryAcquireTurn(attempt: Attempt, landing: Option<Freezing>, now: int) returns (result: TurnResult)
      requires client.Valid()
      modifies backend
      ensures Refuses(result) <==> !Payable(client, attempt.cost)
      ensures Refuses(result) ==> backend.Contents() == old(backend.Contents())
      ensures Held(client, attempt, backend.queue.Contents(), old(backend.Contents()), backend.Contents(), result, now)
      ensures result.TurnAcquired? || result.TurnDeclined? ==>
        TurnCharged(client, attempt, result.TurnAcquired?, old(backend.Contents()), backend.Contents(), now)
      ensures result.ThrewFrozen? ==>
        || backend.Contents() == old(backend.Contents())
        || HandedBack(client, attempt, landing, old(backend.Contents()), backend.Contents(), now)
      ensures landing.Some? && now < Deadline(landing.value.until) && MeteredLimits(client.limits) != [] ==> !result.TurnAcquired?
      ensures result.ThrewFrozen? ==> !CanProcess(backend.Contents().FreezeOf(client.keys.freeze), now)
    {
      var metered := MeteredLimits(client.limits);
      if metered == [] {
        Unmetered(backend.Contents(), client, attempt, now);
        HeldCharges(client, attempt, backend.queue.Contents(), backend.Contents(), backend.Contents(), TurnAcquired, now);
        return TurnAcquired;
      }
      var flaw := UnusableCostReason(attempt.cost);
      if flaw.Some? {
        return ThrewUnspendable(flaw.value);
      }
      var problem := GetCostProblem(attempt.cost, metered);
      if problem.Some? {
        return ThrewProblem(problem.value);
      }
      var canProcess, probing, until := backend.CanProcessRequest(client.keys.freeze, now);
      if !canProcess {
        return ThrewFrozen;
      }
      MeteredAreNamed(client, attempt.cost);
      ghost var before := backend.Contents();
      result := ClaimTurn(attempt, landing, now);
      if result.TurnAcquired? || result.TurnDeclined? {
        HeldCharges(client, attempt, backend.queue.Contents(), before, backend.Contents(), result, now);
      }
    }
  }
}
