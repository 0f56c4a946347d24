/**
 * A claim of several budgets against the single claims it stands for: one budget is
 * claimed as it would be alone, and a claim handed straight back leaves no trace in
 * what any later claim reads.
 */
module ClaimRelease {
  import opened Numbers
  import opened TokenBucket
  import opened Buckets
  import opened Slots
  import opened Freeze
  import opened MultiLimit
  import opened AllOrNothing

  // ------------------------------------------------------------- a list of one

  lemma OnePlan(s: Store, spec: Spec, now: int)
    ensures PlanAll(s, [spec], now) == PlanSpec(Plan(s, true, None, None, None, [], []), spec, now)
  {
    assert [spec][..0] == [];
    assert PlanAll(s, [], now) == Plan(s, true, None, None, None, [], []);
  }

  /** What a list of one bucket makes of the store. */
  ghost predicate BucketAlone(s: Store, spec: Spec, ttl: int, now: int)
    requires spec.BucketSpec?
  {
    var (t, result) := AcquireMultiLimit(s, [spec], ttl, now);
    var (c, alone) := Acquire(s.CellOf(spec.key), spec.cost, spec.cfg, spec.mark, ttl, now);
    && t.CellOf(spec.key) == c
    && t == s.(cells := t.cells, epochs := t.epochs)
    && (forall key :: key != spec.key ==> t.CellOf(key) == s.CellOf(key).(epochs := t.epochs))
    && match alone
       case Acquired(_) => result == AllAcquired
       case Declined(waitTime, _) => result == Refused(waitTime, Some(spec.key))
       case Unusable(error) => result == UnusableSpecs(OfBucket(error))
  }

  /** A plan without slots has only its buckets left to write. */
  lemma BucketsOfPlan(s: Store, specs: seq<Spec>, ttl: int, now: int)
    requires var p := PlanAll(s, specs, now); p.error.None? && p.slots == [] && AllUsable(p.buckets)
    ensures var p := PlanAll(s, specs, now);
      AcquireMultiLimit(s, specs, ttl, now)
        == (PutBuckets(p.store, p.buckets, p.acquired, ttl, now),
            if p.acquired then AllAcquired else Refused(if p.waitTime.Some? then p.waitTime.value else 0, p.blockedBy))
  {
  }

  lemma OnePut(s: Store, b: PlannedBucket, spend: bool, ttl: int, now: int)
    requires b.cfg.Usable()
    ensures PutBuckets(s, [b], spend, ttl, now) == PutBucket(s, b, spend, ttl, now)
  {
    assert [b][..0] == [];
    assert PutBuckets(s, [], spend, ttl, now) == s;
  }

  /** What claiming a bucket by itself comes to, by whether the balance covers the cost. */
  lemma BucketOutcome(c: Cell, spec: Spec, ttl: int, now: int)
    requires spec.BucketSpec? && UnusableSpec(spec).None?
    ensures
      var (after, alone) := Acquire(c, spec.cost, spec.cfg, spec.mark, ttl, now);
      var bal := c.Reading(spec.cfg, now);
      if CoversCost(bal.tokens, spec.cost, spec.cfg.maxTokens)
      then alone.Acquired? && after == Commit(c, bal, spec.cost, spec.cfg, spec.mark, ttl, now)
      else
        && alone == Declined(WaitTime(bal, spec.cfg, spec.cost, now), bal.tokens)
        && after == c.Write(bal, BucketTtl(ttl, spec.cfg), now)
  {
  }

  lemma OneBucketPlan(s: Store, spec: Spec, now: int)
    requires spec.BucketSpec? && UnusableSpec(spec).None?
    ensures var p, bal := PlanAll(s, [spec], now), s.CellOf(spec.key).Reading(spec.cfg, now);
      && p.error.None? && p.store == s && p.slots == []
      && p.buckets == [PlannedBucket(spec.key, bal, spec.cost, spec.cfg, spec.mark)]
      && (p.acquired <==> CoversCost(bal.tokens, spec.cost, spec.cfg.maxTokens))
      && (!p.acquired ==> p.waitTime == Some(WaitTime(bal, spec.cfg, spec.cost, now)) && p.blockedBy == Some(spec.key))
  {
    OnePlan(s, spec, now);
  }

  lemma OneBucketUsable(s: Store, spec: Spec, ttl: int, now: int)
    requires spec.BucketSpec? && UnusableSpec(spec).None?
    ensures BucketAlone(s, spec, ttl, now)
  {
    var b := PlannedBucket(spec.key, s.CellOf(spec.key).Reading(spec.cfg, now), spec.cost, spec.cfg, spec.mark);
    OneBucketPlan(s, spec, now);
    BucketsOfPlan(s, [spec], ttl, now);
    OnePut(s, b, CoversCost(b.bal.tokens, spec.cost, spec.cfg.maxTokens), ttl, now);
    BucketOutcome(s.CellOf(spec.key), spec, ttl, now);
  }

  lemma OneBucketUnusable(s: Store, spec: Spec, ttl: int, now: int)
    requires spec.BucketSpec? && UnusableSpec(spec).Some?
    ensures BucketAlone(s, spec, ttl, now)
  {
    OnePlan(s, spec, now);
    PlansAreUsable(s, [spec], now);
  }

  /** A list of one bucket decides as its claim alone does and leaves the same store. */
  lemma OneBucketAlone(s: Store, spec: Spec, ttl: int, now: int)
    requires spec.BucketSpec?
    ensures BucketAlone(s, spec, ttl, now)
  {
    if UnusableSpec(spec).Some? {
      OneBucketUnusable(s, spec, ttl, now);
    } else {
      OneBucketUsable(s, spec, ttl, now);
    }
  }

  /** What a list of one slot makes of the store. */
  ghost predicate SlotAlone(s: Store, spec: Spec, ttl: int, now: int)
    requires spec.SlotSpec?
  {
    var (t, result) := AcquireMultiLimit(s, [spec], ttl, now);
    var (l, alone) := AcquireSlot(s.LedgerOf(spec.key), spec.cost, spec.slotId, spec.slotCfg, ttl, now);
    && t.LedgerOf(spec.key) == l
    && t == s.(ledgers := t.ledgers)
    && (forall key :: key != spec.key ==> t.LedgerOf(key) == s.LedgerOf(key))
    && match alone
       case SlotAcquired(_) => result == AllAcquired
       case SlotFull(_) => result == Refused(0, Some(spec.key))
       case SlotUnusable(error) => result == UnusableSpecs(OfSlot(error))
  }

  /** What claiming a slot by itself comes to, its occupancy aside. */
  lemma SlotOutcome(l: Ledger, spec: Spec, ttl: int, now: int)
    requires spec.SlotSpec? && UnusableSpec(spec).None?
    ensures
      var (after, alone) := AcquireSlot(l, spec.cost, spec.slotId, spec.slotCfg, ttl, now);
      var reaped := Reap(l, now - spec.slotCfg.requestTtl, now);
      && (alone.SlotAcquired? <==> AcquireSlot(l, spec.cost, spec.slotId, spec.slotCfg, DAY_SECONDS, now).1.SlotAcquired?)
      && (alone.SlotAcquired? ==> after == ClaimSlot(reaped, spec.slotId, spec.cost, ttl, now))
      && (!alone.SlotAcquired? ==> alone.SlotFull? && after == reaped)
  {
  }

  lemma OneSlotUnusable(s: Store, spec: Spec, ttl: int, now: int)
    requires spec.SlotSpec? && UnusableSpec(spec).Some?
    ensures SlotAlone(s, spec, ttl, now)
  {
    OnePlan(s, spec, now);
    PlansAreUsable(s, [spec], now);
  }

  /** A plan without buckets has only its slots left to claim. */
  lemma SlotsOfPlan(s: Store, specs: seq<Spec>, ttl: int, now: int)
    requires PlanAll(s, specs, now).error.None? && PlanAll(s, specs, now).buckets == []
    ensures var p := PlanAll(s, specs, now);
      AcquireMultiLimit(s, specs, ttl, now)
        == if p.acquired then (CommitSlots(p.store, p.slots, ttl, now), AllAcquired)
           else (p.store, Refused(if p.waitTime.Some? then p.waitTime.value else 0, p.blockedBy))
  {
    PlansAreUsable(s, specs, now);
  }

  lemma OneSlotPlan(s: Store, spec: Spec, now: int)
    requires spec.SlotSpec? && UnusableSpec(spec).None?
    ensures var p, l := PlanAll(s, [spec], now), s.LedgerOf(spec.key);
      && p.error.None? && p.buckets == [] && p.waitTime.None?
      && p.store == s.ReapLedger(spec.key, now - spec.slotCfg.requestTtl, now)
      && (p.acquired <==> AcquireSlot(l, spec.cost, spec.slotId, spec.slotCfg, DAY_SECONDS, now).1.SlotAcquired?)
      && (p.acquired ==> p.slots == [PlannedSlot(spec.key, spec.slotId, spec.cost)])
      && (!p.acquired ==> p.blockedBy == Some(spec.key))
  {
    var start := Plan(s, true, None, None, None, [], []);
    OnePlan(s, spec, now);
    SlotPlanned(start, spec, now);
    SlotBlame(start, spec, now);
  }

  lemma OneCommit(s: Store, slot: PlannedSlot, ttl: int, now: int)
    ensures CommitSlots(s, [slot], ttl, now) == CommitSlot(s, slot, ttl, now)
  {
    assert [slot][..0] == [];
    assert CommitSlots(s, [], ttl, now) == s;
  }

  lemma OneSlotUsable(s: Store, spec: Spec, ttl: int, now: int)
    requires spec.SlotSpec? && UnusableSpec(spec).None?
    ensures SlotAlone(s, spec, ttl, now)
  {
    OneSlotPlan(s, spec, now);
    SlotsOfPlan(s, [spec], ttl, now);
    SlotOutcome(s.LedgerOf(spec.key), spec, ttl, now);
    OneCommit(PlanAll(s, [spec], now).store, PlannedSlot(spec.key, spec.slotId, spec.cost), ttl, now);
  }

  /** A list of one slot decides as its claim alone does and leaves the same store. */
  lemma OneSlotAlone(s: Store, spec: Spec, ttl: int, now: int)
    requires spec.SlotSpec?
    ensures SlotAlone(s, spec, ttl, now)
  {
    if UnusableSpec(spec).Some? {
      OneSlotUnusable(s, spec, ttl, now);
    } else {
      OneSlotUsable(s, spec, ttl, now);
    }
  }

  // --------------------------------------------------- handing a claim straight back

  /** What releasing a list makes of the key of one of its specs. */
  ghost predicate Released(t: Store, u: Store, spec: Spec, now: int) {
    match spec
    case BucketSpec(key, freezeKey, cost, cfg, _) =>
      u.CellOf(key) == if freezeKey != "" && Emptied(t.FreezeOf(freezeKey), now) then t.CellOf(key)
        else Credit(t.CellOf(key), cost, cfg.maxTokens, now)
    case SlotSpec(key, _, _, _, slotId) =>
      u.LedgerOf(key) == ReleaseSlot(t.LedgerOf(key), slotId, now)
  }

  ghost predicate AllReleased(t: Store, specs: seq<Spec>, u: Store, now: int) {
    && u.freezes == t.freezes && u.epochs == t.epochs
    && (forall key :: !NamesBucket(specs, key) ==> u.CellOf(key) == t.CellOf(key))
    && (forall key :: !NamesLedger(specs, key) ==> u.LedgerOf(key) == t.LedgerOf(key))
    && forall i :: 0 <= i < |specs| ==> Released(t, u, specs[i], now)
  }

  lemma ReleasedExtend(t: Store, specs: seq<Spec>, pre: seq<Spec>, last: Spec, mid: Store, now: int)
    requires Split(specs, pre, last) && Distinct(specs) && AllReleased(t, pre, mid, now)
    ensures AllReleased(t, specs, ReleaseSpec(mid, last, now), now)
  {
    var u := ReleaseSpec(mid, last, now);
    LastIsNew(specs, pre, last);
    assert mid.FreezeOf(last.freezeKey) == t.FreezeOf(last.freezeKey);
    forall key | !NamesBucket(specs, key) ensures u.CellOf(key) == t.CellOf(key) { Named(specs, pre, last, key); }
    forall key | !NamesLedger(specs, key) ensures u.LedgerOf(key) == t.LedgerOf(key) { Named(specs, pre, last, key); }
    forall i | 0 <= i < |specs| ensures Released(t, u, specs[i], now) {
      if i < |pre| {
        assert specs[i] == pre[i] && specs[|pre|] == last && Released(t, mid, pre[i], now);
      }
    }
  }

  lemma {:induction false} ReleasesEach(t: Store, specs: seq<Spec>, now: int)
    requires Distinct(specs)
    ensures AllReleased(t, specs, ReleaseMultiLimit(t, specs, now), now)
    decreases |specs|
  {
    if specs != [] {
      var pre, last := specs[..|specs| - 1], specs[|specs| - 1];
      assert Split(specs, pre, last);
      LastIsNew(specs, pre, last);
      ReleasesEach(t, pre, now);
      ReleasedExtend(t, specs, pre, last, ReleaseMultiLimit(t, pre, now), now);
    }
  }

  /** A cost taken and handed back at one instant reads as if it had not been taken. */
  lemma RefundRestores(c: Cell, d: Cell, spec: Spec, ttl: int, now: int)
    requires spec.BucketSpec? && UnusableSpec(spec).None? && ttl > 0
    requires Acquire(c, spec.cost, spec.cfg, spec.mark, ttl, now).1.Acquired?
    requires SameClaim(d, Acquire(c, spec.cost, spec.cfg, spec.mark, ttl, now).0)
    ensures Credit(d, spec.cost, spec.cfg.maxTokens, now).Reading(spec.cfg, now) == c.Reading(spec.cfg, now)
  {
    var stored := c.Stored(now);
    var origin := if stored.Some? then stored.value.bal else Fresh(spec.cfg, now);
    RefillGrows(origin, spec.cfg, now);
    RefillSettles(origin, spec.cfg, now);
    var bal := c.Reading(spec.cfg, now);
    assert d.Stored(now).Some? && d.Stored(now).value.bal == bal.(tokens := bal.tokens - spec.cost);
    assert bal.tokens - spec.cost + spec.cost == bal.tokens;
  }

  /** A fresh slot claimed and released at one instant leaves the reaped members and costs. */
  lemma ReleaseRestores(reaped: Ledger, id: string, cost: real, ttl: int, now: int)
    requires Paired(reaped) && id !in reaped.Members(now) && ttl > 0
    ensures var l := ReleaseSlot(ClaimSlot(reaped, id, cost, ttl, now), id, now);
      l.Members(now) == reaped.Members(now) && l.Costs(now) == reaped.Costs(now)
  {
    assert reaped.Members(now)[id := now] - {id} == reaped.Members(now);
    assert reaped.Costs(now)[id := cost] - {id} == reaped.Costs(now);
  }

  /** A refund of the spec will be honoured: no freeze that emptied its bucket stands. */
  ghost predicate Refundable(t: Store, spec: Spec, now: int) {
    spec.BucketSpec? ==> spec.freezeKey == "" || !Emptied(t.FreezeOf(spec.freezeKey), now)
  }

  /** The slot id of a slot spec is new to its ledger. */
  ghost predicate FreshSlot(s: Store, spec: Spec, now: int) {
    spec.SlotSpec? ==>
      && Paired(s.LedgerOf(spec.key))
      && spec.slotId !in Reap(s.LedgerOf(spec.key), now - spec.slotCfg.requestTtl, now).Members(now)
  }

  /** What a later claim of the spec's budget sees is what it would have seen. */
  ghost predicate ReadsTheSame(s: Store, u: Store, spec: Spec, now: int) {
    match spec
    case BucketSpec(key, _, _, cfg, _) => u.CellOf(key).Reading(cfg, now) == s.CellOf(key).Reading(cfg, now)
    case SlotSpec(key, _, _, cfg, _) =>
      var reaped := Reap(s.LedgerOf(key), now - cfg.requestTtl, now);
      u.LedgerOf(key).Members(now) == reaped.Members(now) && u.LedgerOf(key).Costs(now) == reaped.Costs(now)
  }

  lemma BucketHandedBack(s: Store, t: Store, u: Store, spec: Spec, ttl: int, now: int)
    requires spec.BucketSpec? && UnusableSpec(spec).None? && AdmitsAlone(s, spec, now) && Refundable(t, spec, now) && ttl > 0
    requires Released(t, u, spec, now) && BucketLeft(s, t, spec, true, ttl, now)
    ensures ReadsTheSame(s, u, spec, now)
  {
    var c, d := s.CellOf(spec.key), t.CellOf(spec.key);
    assert u.CellOf(spec.key) == Credit(d, spec.cost, spec.cfg.maxTokens, now);
    ClaimedAlike(s, t, spec, ttl, now);
    RefundRestores(c, d, spec, ttl, now);
  }

  lemma ReapPaired(l: Ledger, expireTime: int, now: int)
    requires Paired(l)
    ensures Paired(Reap(l, expireTime, now))
  {
    ReapCapped(l, expireTime, now, if l.costs.Some? then Total(l.costs.value.value) else 0.0);
  }

  lemma SlotHandedBack(s: Store, t: Store, u: Store, spec: Spec, ttl: int, now: int)
    requires spec.SlotSpec? && UnusableSpec(spec).None? && AdmitsAlone(s, spec, now) && FreshSlot(s, spec, now) && ttl > 0
    requires Released(t, u, spec, now) && LedgerLeft(s, t, spec, true, ttl, now)
    ensures ReadsTheSame(s, u, spec, now)
  {
    var l := s.LedgerOf(spec.key);
    var reaped := Reap(l, now - spec.slotCfg.requestTtl, now);
    SlotClaimed(l, spec, ttl, now);
    ReapPaired(l, now - spec.slotCfg.requestTtl, now);
    ReleaseRestores(reaped, spec.slotId, spec.cost, ttl, now);
  }

  /**
   * An admitted list released at once: every bucket it named reads the balance it read
   * before, every ledger shows the slots and costs it showed once reaped, and no other
   * key has changed.
   */
  lemma ReleaseUndoesAcquire(s: Store, specs: seq<Spec>, ttl: int, now: int)
    requires Distinct(specs) && Usable(specs) && AllAdmit(s, specs, now) && ttl > 0
    requires forall i :: 0 <= i < |specs| ==> Refundable(s, specs[i], now) && FreshSlot(s, specs[i], now)
    ensures var u := ReleaseMultiLimit(AcquireMultiLimit(s, specs, ttl, now).0, specs, now);
      && (forall i :: 0 <= i < |specs| ==> ReadsTheSame(s, u, specs[i], now))
      && (forall key :: !NamesBucket(specs, key) ==> u.CellOf(key) == s.CellOf(key).(epochs := u.epochs))
      && (forall key :: !NamesLedger(specs, key) ==> u.LedgerOf(key) == s.LedgerOf(key))
      && u.freezes == s.freezes
  {
    var t := AcquireMultiLimit(s, specs, ttl, now).0;
    AcquiresAllOrNone(s, specs, ttl, now);
    ReleasesEach(t, specs, now);
    assert forall key :: t.FreezeOf(key) == s.FreezeOf(key);
    HandedBackEach(s, t, specs, ReleaseMultiLimit(t, specs, now), ttl, now);
  }

  lemma HandedBackEach(s: Store, t: Store, specs: seq<Spec>, u: Store, ttl: int, now: int)
    requires Usable(specs) && AllAdmit(s, specs, now) && ttl > 0
    requires forall i :: 0 <= i < |specs| ==> Refundable(t, specs[i], now) && FreshSlot(s, specs[i], now)
    requires BucketsLeft(s, specs, t, true, ttl, now) && LedgersLeft(s, specs, t, true, ttl, now) && AllReleased(t, specs, u, now)
    ensures forall i :: 0 <= i < |specs| ==> ReadsTheSame(s, u, specs[i], now)
  {
    forall i | 0 <= i < |specs| ensures ReadsTheSame(s, u, specs[i], now) {
      if specs[i].BucketSpec? {
        BucketHandedBack(s, t, u, specs[i], ttl, now);
      } else {
        SlotHandedBack(s, t, u, specs[i], ttl, now);
      }
    }
  }
}
