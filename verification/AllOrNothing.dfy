/**
 * A claim of several budgets takes all of them or none: for every list of distinct
 * usable budgets, what is decided and what each key is left holding.
 */
module AllOrNothing {
  import opened Numbers
  import opened TokenBucket
  import opened Buckets
  import opened Slots
  import opened Freeze
  import opened MultiLimit

  /** Limit names are unique in a client, so no two specs of a kind share a key. */
  ghost predicate Distinct(specs: seq<Spec>) {
    forall i, j :: 0 <= i < j < |specs| ==>
      specs[i].key != specs[j].key || specs[i].BucketSpec? != specs[j].BucketSpec?
  }

  predicate Usable(specs: seq<Spec>) {
    forall i :: 0 <= i < |specs| ==> UnusableSpec(specs[i]).None?
  }

  /** Whether this budget by itself would admit its cost. */
  ghost predicate AdmitsAlone(s: Store, spec: Spec, now: int) {
    match spec
    case BucketSpec(key, _, cost, cfg, mark) => Acquire(s.CellOf(key), cost, cfg, mark, DAY_SECONDS, now).1.Acquired?
    case SlotSpec(key, _, cost, cfg, slotId) => AcquireSlot(s.LedgerOf(key), cost, slotId, cfg, DAY_SECONDS, now).1.SlotAcquired?
  }

  ghost predicate AllAdmit(s: Store, specs: seq<Spec>, now: int) {
    forall i :: 0 <= i < |specs| ==> AdmitsAlone(s, specs[i], now)
  }

  ghost predicate NamesLedger(specs: seq<Spec>, key: string) {
    exists i :: 0 <= i < |specs| && specs[i].SlotSpec? && specs[i].key == key
  }

  ghost predicate NamesBucket(specs: seq<Spec>, key: string) {
    exists i :: 0 <= i < |specs| && specs[i].BucketSpec? && specs[i].key == key
  }

  // ----------------------------------------------- what each key is to end up with

  function Unstamped(m: Entry<Mark>): Entry<Mark> { m.(value := m.value.(epoch := None)) }

  /** The same claim on the same bucket, but for the number its first mark's epoch got. */
  ghost predicate SameClaim(c: Cell, d: Cell) {
    && c.bucket.Some? && d.bucket.Some?
    && c.bucket.value.expiresAt == d.bucket.value.expiresAt
    && c.bucket.value.value.(epoch := None) == d.bucket.value.value.(epoch := None)
    && (c.bucket.value.value.epoch.Some? <==> d.bucket.value.value.epoch.Some?)
    && c.marks.Keys == d.marks.Keys
    && forall id :: id in c.marks ==> Unstamped(c.marks[id]) == Unstamped(d.marks[id])
  }

  /** The bucket is as its own claim leaves it when `epochs` have been handed out. */
  ghost predicate ClaimedAfter(s: Store, t: Store, spec: Spec, epochs: nat, ttl: int, now: int)
    requires spec.BucketSpec?
  {
    var alone := Acquire(s.CellOf(spec.key).(epochs := epochs), spec.cost, spec.cfg, spec.mark, ttl, now).0;
    s.epochs <= epochs && alone.epochs <= t.epochs && t.CellOf(spec.key) == alone.(epochs := t.epochs)
  }

  /** The bucket is left as its own claim would leave it, or just refilled. */
  ghost predicate BucketLeft(s: Store, t: Store, spec: Spec, spent: bool, ttl: int, now: int)
    requires spec.BucketSpec? && UnusableSpec(spec).None?
  {
    var before, c := s.CellOf(spec.key), t.CellOf(spec.key);
    if spent then
      exists epochs: nat :: ClaimedAfter(s, t, spec, epochs, ttl, now)
    else
      c == before.Write(before.Reading(spec.cfg, now), BucketTtl(ttl, spec.cfg), now).(epochs := t.epochs)
  }

  ghost predicate BucketsLeft(s: Store, specs: seq<Spec>, t: Store, spent: bool, ttl: int, now: int)
    requires Usable(specs)
  {
    && s.epochs <= t.epochs
    && (forall key :: !NamesBucket(specs, key) ==> t.CellOf(key) == s.CellOf(key).(epochs := t.epochs))
    && forall i :: 0 <= i < |specs| && specs[i].BucketSpec? ==> BucketLeft(s, t, specs[i], spent, ttl, now)
  }

  /** The ledger has the slot as its own claim alone would give it, or is only reaped. */
  ghost predicate LedgerLeft(s: Store, t: Store, spec: Spec, spent: bool, ttl: int, now: int)
    requires spec.SlotSpec?
  {
    var before := s.LedgerOf(spec.key);
    t.LedgerOf(spec.key)
      == if spent then AcquireSlot(before, spec.cost, spec.slotId, spec.slotCfg, ttl, now).0
         else Reap(before, now - spec.slotCfg.requestTtl, now)
  }

  ghost predicate LedgersLeft(s: Store, specs: seq<Spec>, t: Store, spent: bool, ttl: int, now: int) {
    && (forall key :: !NamesLedger(specs, key) ==> t.LedgerOf(key) == s.LedgerOf(key))
    && forall i :: 0 <= i < |specs| && specs[i].SlotSpec? ==> LedgerLeft(s, t, specs[i], spent, ttl, now)
  }

  // ---------------------------------------------------------------- small steps

  ghost predicate Split(specs: seq<Spec>, pre: seq<Spec>, last: Spec) { specs == pre + [last] }

  lemma Named(specs: seq<Spec>, pre: seq<Spec>, last: Spec, key: string)
    requires Split(specs, pre, last)
    ensures NamesBucket(specs, key) <==> NamesBucket(pre, key) || (last.BucketSpec? && last.key == key)
    ensures NamesLedger(specs, key) <==> NamesLedger(pre, key) || (last.SlotSpec? && last.key == key)
  {
    assert specs[|pre|] == last && forall i :: 0 <= i < |pre| ==> pre[i] == specs[i];
  }

  /** The last of a list of distinct specs names a key the others do not. */
  lemma LastIsNew(specs: seq<Spec>, pre: seq<Spec>, last: Spec)
    requires Split(specs, pre, last) && Distinct(specs)
    ensures Distinct(pre)
    ensures last.SlotSpec? ==> !NamesLedger(pre, last.key)
    ensures last.BucketSpec? ==> !NamesBucket(pre, last.key)
  {
    assert specs[|pre|] == last && forall i :: 0 <= i < |pre| ==> pre[i] == specs[i];
  }

  lemma AllAdmitSplit(s: Store, specs: seq<Spec>, pre: seq<Spec>, last: Spec, now: int)
    requires Split(specs, pre, last)
    ensures AllAdmit(s, specs, now) <==> AllAdmit(s, pre, now) && AdmitsAlone(s, last, now)
    ensures Usable(specs) <==> Usable(pre) && UnusableSpec(last).None?
  {
    assert specs[|pre|] == last && forall i :: 0 <= i < |pre| ==> pre[i] == specs[i];
  }

  /** Extends what holds of each spec of a list by one more, whose key is new. */
  lemma LedgersExtend(s: Store, specs: seq<Spec>, pre: seq<Spec>, last: Spec, mid: Store, t: Store, spent: bool,
        ttl: int, now: int)
    requires Split(specs, pre, last) && Distinct(specs) && LedgersLeft(s, pre, mid, spent, ttl, now)
    requires forall key :: last.BucketSpec? || key != last.key ==> t.LedgerOf(key) == mid.LedgerOf(key)
    requires last.SlotSpec? ==> LedgerLeft(s, t, last, spent, ttl, now)
    ensures LedgersLeft(s, specs, t, spent, ttl, now)
  {
    forall key | !NamesLedger(specs, key) ensures t.LedgerOf(key) == s.LedgerOf(key) {
      Named(specs, pre, last, key);
    }
    forall i | 0 <= i < |specs| && specs[i].SlotSpec? ensures LedgerLeft(s, t, specs[i], spent, ttl, now) {
      if i < |pre| {
        assert specs[i] == pre[i] && LedgerLeft(s, mid, pre[i], spent, ttl, now);
        assert specs[|pre|] == last;
      }
    }
  }

  lemma BucketsExtend(s: Store, specs: seq<Spec>, pre: seq<Spec>, last: Spec, mid: Store, t: Store, spent: bool,
        ttl: int, now: int)
    requires Split(specs, pre, last) && Distinct(specs) && Usable(specs) && Usable(pre) && BucketsLeft(s, pre, mid, spent, ttl, now)
    requires mid.epochs <= t.epochs
    requires forall key :: last.SlotSpec? || key != last.key ==> t.CellOf(key) == mid.CellOf(key).(epochs := t.epochs)
    requires last.BucketSpec? ==> UnusableSpec(last).None? && BucketLeft(s, t, last, spent, ttl, now)
    ensures BucketsLeft(s, specs, t, spent, ttl, now)
  {
    forall key | !NamesBucket(specs, key) ensures t.CellOf(key) == s.CellOf(key).(epochs := t.epochs) {
      Named(specs, pre, last, key);
    }
    forall i | 0 <= i < |specs| && specs[i].BucketSpec? ensures BucketLeft(s, t, specs[i], spent, ttl, now) {
      if i < |pre| {
        assert specs[i] == pre[i] && BucketLeft(s, mid, pre[i], spent, ttl, now);
        assert specs[|pre|] == last;
        if spent {
          var epochs: nat :| ClaimedAfter(s, mid, pre[i], epochs, ttl, now);
          assert ClaimedAfter(s, t, specs[i], epochs, ttl, now);
        }
      }
    }
  }

  // ------------------------------------------------------------- the check phase

  function Planned(s: Store, spec: Spec, now: int): seq<PlannedBucket> {
    if spec.BucketSpec?
    then [PlannedBucket(spec.key, s.CellOf(spec.key).Reading(spec.cfg, now), spec.cost, spec.cfg, spec.mark)] else []
  }

  function PlannedBuckets(s: Store, specs: seq<Spec>, now: int): seq<PlannedBucket>
    decreases |specs|
  {
    if specs == [] then [] else PlannedBuckets(s, specs[..|specs| - 1], now) + Planned(s, specs[|specs| - 1], now)
  }

  function PlannedSlots(specs: seq<Spec>): seq<PlannedSlot>
    decreases |specs|
  {
    if specs == [] then []
    else
      var last := specs[|specs| - 1];
      PlannedSlots(specs[..|specs| - 1]) + (if last.SlotSpec? then [PlannedSlot(last.key, last.slotId, last.cost)] else [])
  }

  /** What the check phase has found out, and the only thing it has written. */
  ghost predicate PlanIs(s: Store, specs: seq<Spec>, ttl: int, now: int, p: Plan) {
    && p.error.None?
    && p.store == s.(ledgers := p.store.ledgers)
    && LedgersLeft(s, specs, p.store, false, ttl, now)
    && (p.acquired <==> AllAdmit(s, specs, now))
    && p.buckets == PlannedBuckets(s, specs, now)
    && (p.acquired ==> p.slots == PlannedSlots(specs))
  }

  /** What the check phase makes of one usable bucket, in terms of claiming it alone. */
  lemma BucketPlanned(p: Plan, spec: Spec, now: int)
    requires spec.BucketSpec? && UnusableSpec(spec).None? && p.error.None?
    ensures var q, c := PlanSpec(p, spec, now), p.store.CellOf(spec.key);
      && q.error.None? && q.store == p.store && q.slots == p.slots
      && q.buckets == p.buckets + [PlannedBucket(spec.key, c.Reading(spec.cfg, now), spec.cost, spec.cfg, spec.mark)]
      && (q.acquired <==> p.acquired && Acquire(c, spec.cost, spec.cfg, spec.mark, DAY_SECONDS, now).1.Acquired?)
  {
  }

  lemma PlanBucketIs(s: Store, specs: seq<Spec>, pre: seq<Spec>, last: Spec, ttl: int, now: int, p: Plan)
    requires Split(specs, pre, last) && last.BucketSpec? && UnusableSpec(last).None? && Distinct(specs)
    requires PlanIs(s, pre, ttl, now, p)
    ensures PlanIs(s, specs, ttl, now, PlanSpec(p, last, now))
  {
    AllAdmitSplit(s, specs, pre, last, now);
    assert specs[..|specs| - 1] == pre;
    assert p.store.CellOf(last.key) == s.CellOf(last.key);
    BucketPlanned(p, last, now);
    LedgersExtend(s, specs, pre, last, p.store, PlanSpec(p, last, now).store, false, ttl, now);
  }

  /** What the check phase makes of one usable slot, in terms of claiming it alone. */
  lemma SlotPlanned(p: Plan, spec: Spec, now: int)
    requires spec.SlotSpec? && UnusableSpec(spec).None? && p.error.None?
    ensures var q, l := PlanSpec(p, spec, now), p.store.LedgerOf(spec.key);
      && q.error.None? && q.buckets == p.buckets
      && q.store == p.store.ReapLedger(spec.key, now - spec.slotCfg.requestTtl, now)
      && q.store.LedgerOf(spec.key) == Reap(l, now - spec.slotCfg.requestTtl, now)
      && (q.acquired <==> p.acquired && AcquireSlot(l, spec.cost, spec.slotId, spec.slotCfg, DAY_SECONDS, now).1.SlotAcquired?)
      && (q.acquired ==> q.slots == p.slots + [PlannedSlot(spec.key, spec.slotId, spec.cost)])
  {
  }

  /** Whom a slot blames, and that it asks for no wait. */
  lemma SlotBlame(p: Plan, spec: Spec, now: int)
    requires spec.SlotSpec? && UnusableSpec(spec).None? && p.error.None?
    ensures var q := PlanSpec(p, spec, now);
      && q.waitTime == p.waitTime
      && (AcquireSlot(p.store.LedgerOf(spec.key), spec.cost, spec.slotId, spec.slotCfg, DAY_SECONDS, now).1.SlotAcquired?
          ==> q.blockedBy == p.blockedBy)
      && (p.acquired && !q.acquired ==> q.blockedBy == if p.blockedBy.None? then Some(spec.key) else p.blockedBy)
      && (p.blockedBy.Some? ==> q.blockedBy == p.blockedBy)
  {
  }

  lemma PlanSlotIs(s: Store, specs: seq<Spec>, pre: seq<Spec>, last: Spec, ttl: int, now: int, p: Plan)
    requires Split(specs, pre, last) && last.SlotSpec? && UnusableSpec(last).None? && Distinct(specs)
    requires PlanIs(s, pre, ttl, now, p)
    ensures PlanIs(s, specs, ttl, now, PlanSpec(p, last, now))
  {
    AllAdmitSplit(s, specs, pre, last, now);
    LastIsNew(specs, pre, last);
    assert specs[..|specs| - 1] == pre;
    assert p.store.LedgerOf(last.key) == s.LedgerOf(last.key);
    SlotPlanned(p, last, now);
    LedgersExtend(s, specs, pre, last, p.store, PlanSpec(p, last, now).store, false, ttl, now);
  }

  lemma {:induction false} PlanOfDistinct(s: Store, specs: seq<Spec>, ttl: int, now: int)
    requires Distinct(specs) && Usable(specs)
    ensures PlanIs(s, specs, ttl, now, PlanAll(s, specs, now))
    decreases |specs|
  {
    if specs != [] {
      var pre, last := specs[..|specs| - 1], specs[|specs| - 1];
      assert Split(specs, pre, last);
      LastIsNew(specs, pre, last);
      PlanOfDistinct(s, pre, ttl, now);
      if last.BucketSpec? {
        PlanBucketIs(s, specs, pre, last, ttl, now, PlanAll(s, pre, now));
      } else {
        PlanSlotIs(s, specs, pre, last, ttl, now, PlanAll(s, pre, now));
      }
    }
  }

  // ------------------------------------------------------------ the write phase

  /** Which epoch a claim's mark gets is all that depends on the other buckets of its list. */
  lemma ClaimedAlike(s: Store, t: Store, spec: Spec, ttl: int, now: int)
    requires spec.BucketSpec? && UnusableSpec(spec).None? && BucketLeft(s, t, spec, true, ttl, now)
    requires AdmitsAlone(s, spec, now)
    ensures var c, alone := t.CellOf(spec.key), Acquire(s.CellOf(spec.key), spec.cost, spec.cfg, spec.mark, ttl, now).0;
      SameClaim(c, alone) && (spec.mark.None? ==> c.bucket == alone.bucket && c.marks == alone.marks)
  {
    var epochs: nat :| ClaimedAfter(s, t, spec, epochs, ttl, now);
    var c := s.CellOf(spec.key);
    var bal := c.Reading(spec.cfg, now);
    assert Acquire(c, spec.cost, spec.cfg, spec.mark, ttl, now).0 == Commit(c, bal, spec.cost, spec.cfg, spec.mark, ttl, now);
    assert Acquire(c.(epochs := epochs), spec.cost, spec.cfg, spec.mark, ttl, now).0
      == Commit(c.(epochs := epochs), bal, spec.cost, spec.cfg, spec.mark, ttl, now);
    CommitsAlike(c, epochs, bal, spec.cost, spec.cfg, spec.mark, ttl, now);
  }

  lemma CommitsAlike(c: Cell, epochs: nat, bal: Balance, cost: real, cfg: Config, mark: Option<ClaimMark>, ttl: int, now: int)
    requires cfg.Usable()
    ensures var d, e := Commit(c, bal, cost, cfg, mark, ttl, now), Commit(c.(epochs := epochs), bal, cost, cfg, mark, ttl, now);
      SameClaim(e, d) && (mark.None? ==> e.bucket == d.bucket && e.marks == d.marks)
  {
  }

  lemma PutLeaves(s: Store, mid: Store, spec: Spec, spend: bool, ttl: int, now: int)
    requires spec.BucketSpec? && UnusableSpec(spec).None?
    requires s.epochs <= mid.epochs && mid.CellOf(spec.key) == s.CellOf(spec.key).(epochs := mid.epochs)
    requires spend ==> AdmitsAlone(s, spec, now)
    ensures var t := PutBucket(mid, Planned(s, spec, now)[0], spend, ttl, now);
      mid.epochs <= t.epochs && BucketLeft(s, t, spec, spend, ttl, now)
  {
    var c, t := s.CellOf(spec.key), PutBucket(mid, Planned(s, spec, now)[0], spend, ttl, now);
    if spend {
      var d := mid.CellOf(spec.key);
      assert Acquire(d, spec.cost, spec.cfg, spec.mark, ttl, now).0
        == Commit(d, c.Reading(spec.cfg, now), spec.cost, spec.cfg, spec.mark, ttl, now);
      assert ClaimedAfter(s, t, spec, mid.epochs, ttl, now);
    }
  }

  lemma {:induction false} PutsEach(s: Store, p: Store, specs: seq<Spec>, spend: bool, ttl: int, now: int)
    requires Distinct(specs) && Usable(specs) && (spend ==> AllAdmit(s, specs, now))
    requires p == s.(ledgers := p.ledgers) && AllUsable(PlannedBuckets(s, specs, now))
    ensures var t := PutBuckets(p, PlannedBuckets(s, specs, now), spend, ttl, now);
      t.ledgers == p.ledgers && t.freezes == p.freezes && BucketsLeft(s, specs, t, spend, ttl, now)
    decreases |specs|
  {
    if specs != [] {
      var pre, last := specs[..|specs| - 1], specs[|specs| - 1];
      assert Split(specs, pre, last);
      LastIsNew(specs, pre, last);
      AllAdmitSplit(s, specs, pre, last, now);
      var bs, all := PlannedBuckets(s, pre, now), PlannedBuckets(s, specs, now);
      assert all == bs + Planned(s, last, now);
      assert AllUsable(bs) by { assert forall i :: 0 <= i < |bs| ==> bs[i] == all[i]; }
      PutsEach(s, p, pre, spend, ttl, now);
      PutsLast(s, specs, pre, last, PutBuckets(p, bs, spend, ttl, now), spend, ttl, now);
      if last.BucketSpec? {
        assert all[..|all| - 1] == bs;
      } else {
        assert all == bs;
      }
    }
  }

  lemma PutsLast(s: Store, specs: seq<Spec>, pre: seq<Spec>, last: Spec, mid: Store, spend: bool, ttl: int, now: int)
    requires Split(specs, pre, last) && Distinct(specs) && Usable(specs) && Usable(pre) && UnusableSpec(last).None?
    requires (spend ==> AdmitsAlone(s, last, now)) && BucketsLeft(s, pre, mid, spend, ttl, now)
    ensures var t := if last.BucketSpec? then PutBucket(mid, Planned(s, last, now)[0], spend, ttl, now) else mid;
      t.ledgers == mid.ledgers && t.freezes == mid.freezes && BucketsLeft(s, specs, t, spend, ttl, now)
  {
    LastIsNew(specs, pre, last);
    var t := if last.BucketSpec? then PutBucket(mid, Planned(s, last, now)[0], spend, ttl, now) else mid;
    if last.BucketSpec? {
      PutLeaves(s, mid, last, spend, ttl, now);
    }
    BucketsExtend(s, specs, pre, last, mid, t, spend, ttl, now);
  }

  /** Each slot of the list claimed over the ledger `p` holds, and no other ledger touched. */
  ghost predicate Claimed(p: Store, specs: seq<Spec>, t: Store, ttl: int, now: int) {
    && (forall key :: !NamesLedger(specs, key) ==> t.LedgerOf(key) == p.LedgerOf(key))
    && forall i :: 0 <= i < |specs| && specs[i].SlotSpec? ==>
      t.LedgerOf(specs[i].key) == ClaimSlot(p.LedgerOf(specs[i].key), specs[i].slotId, specs[i].cost, ttl, now)
  }

  lemma ClaimedExtend(p: Store, specs: seq<Spec>, pre: seq<Spec>, last: Spec, mid: Store, t: Store, ttl: int, now: int)
    requires Split(specs, pre, last) && Distinct(specs) && Claimed(p, pre, mid, ttl, now)
    requires t == if last.SlotSpec? then CommitSlot(mid, PlannedSlot(last.key, last.slotId, last.cost), ttl, now) else mid
    ensures Claimed(p, specs, t, ttl, now)
  {
    LastIsNew(specs, pre, last);
    forall key | !NamesLedger(specs, key) ensures t.LedgerOf(key) == p.LedgerOf(key) {
      Named(specs, pre, last, key);
    }
    forall i | 0 <= i < |specs| && specs[i].SlotSpec?
      ensures t.LedgerOf(specs[i].key) == ClaimSlot(p.LedgerOf(specs[i].key), specs[i].slotId, specs[i].cost, ttl, now)
    {
      if i < |pre| {
        assert specs[i] == pre[i] && specs[|pre|] == last;
      }
    }
  }

  lemma {:induction false} ClaimsEach(p: Store, specs: seq<Spec>, ttl: int, now: int)
    requires Distinct(specs)
    ensures var t := CommitSlots(p, PlannedSlots(specs), ttl, now);
      t == p.(ledgers := t.ledgers) && Claimed(p, specs, t, ttl, now)
    decreases |specs|
  {
    if specs != [] {
      var pre, last := specs[..|specs| - 1], specs[|specs| - 1];
      assert Split(specs, pre, last);
      LastIsNew(specs, pre, last);
      ClaimsEach(p, pre, ttl, now);
      var ps := PlannedSlots(specs);
      assert ps == PlannedSlots(pre) + (if last.SlotSpec? then [PlannedSlot(last.key, last.slotId, last.cost)] else []);
      if last.SlotSpec? {
        assert ps[..|ps| - 1] == PlannedSlots(pre);
      } else {
        assert ps == PlannedSlots(pre);
      }
      ClaimedExtend(p, specs, pre, last, CommitSlots(p, PlannedSlots(pre), ttl, now), CommitSlots(p, ps, ttl, now), ttl, now);
    }
  }

  lemma SlotClaimed(l: Ledger, spec: Spec, ttl: int, now: int)
    requires spec.SlotSpec? && UnusableSpec(spec).None?
    requires AcquireSlot(l, spec.cost, spec.slotId, spec.slotCfg, DAY_SECONDS, now).1.SlotAcquired?
    ensures AcquireSlot(l, spec.cost, spec.slotId, spec.slotCfg, ttl, now).0
      == ClaimSlot(Reap(l, now - spec.slotCfg.requestTtl, now), spec.slotId, spec.cost, ttl, now)
  {
  }

  lemma SlotLeft(s: Store, p: Store, t: Store, spec: Spec, ttl: int, now: int)
    requires spec.SlotSpec? && UnusableSpec(spec).None? && AdmitsAlone(s, spec, now) && LedgerLeft(s, p, spec, false, ttl, now)
    requires t.LedgerOf(spec.key) == ClaimSlot(p.LedgerOf(spec.key), spec.slotId, spec.cost, ttl, now)
    ensures LedgerLeft(s, t, spec, true, ttl, now)
  {
    SlotClaimed(s.LedgerOf(spec.key), spec, ttl, now);
  }

  /** Slots claimed over reaped ledgers are what each claim alone makes of its ledger. */
  lemma ClaimedAlone(s: Store, p: Store, specs: seq<Spec>, t: Store, ttl: int, now: int)
    requires Usable(specs) && AllAdmit(s, specs, now)
    requires LedgersLeft(s, specs, p, false, ttl, now) && Claimed(p, specs, t, ttl, now)
    ensures LedgersLeft(s, specs, t, true, ttl, now)
  {
    forall i | 0 <= i < |specs| && specs[i].SlotSpec? ensures LedgerLeft(s, t, specs[i], true, ttl, now) {
      SlotLeft(s, p, t, specs[i], ttl, now);
    }
  }

  /**
   * For every list of distinct usable budgets: it is acquired exactly when each of
   * them alone would admit its cost. Then each bucket and each ledger is left as its
   * own claim alone would leave it, so each is debited once; otherwise each bucket
   * only has its refill persisted and each ledger only loses its expired slots. No
   * key the list does not name changes, and no freeze.
   */
  lemma AcquiresAllOrNone(s: Store, specs: seq<Spec>, ttl: int, now: int)
    requires Distinct(specs) && Usable(specs)
    ensures var (t, result) := AcquireMultiLimit(s, specs, ttl, now);
      && !result.UnusableSpecs?
      && (result.AllAcquired? <==> AllAdmit(s, specs, now))
      && BucketsLeft(s, specs, t, result.AllAcquired?, ttl, now)
      && LedgersLeft(s, specs, t, result.AllAcquired?, ttl, now)
      && t.freezes == s.freezes
  {
    PlanOfDistinct(s, specs, ttl, now);
    PlansAreUsable(s, specs, now);
    var p := PlanAll(s, specs, now);
    PutsEach(s, p.store, specs, p.acquired, ttl, now);
    var mid := PutBuckets(p.store, p.buckets, p.acquired, ttl, now);
    assert forall key :: mid.LedgerOf(key) == p.store.LedgerOf(key);
    LedgersSame(s, specs, p.store, mid, false, ttl, now);
    if p.acquired {
      var t := CommitSlots(mid, p.slots, ttl, now);
      ClaimsEach(mid, specs, ttl, now);
      ClaimedAlone(s, mid, specs, t, ttl, now);
      assert forall key :: t.CellOf(key) == mid.CellOf(key);
      BucketsSame(s, specs, mid, t, true, ttl, now);
    }
  }

  lemma LedgersSame(s: Store, specs: seq<Spec>, p: Store, q: Store, spent: bool, ttl: int, now: int)
    requires (forall key :: q.LedgerOf(key) == p.LedgerOf(key)) && LedgersLeft(s, specs, p, spent, ttl, now)
    ensures LedgersLeft(s, specs, q, spent, ttl, now)
  {
    assert forall i :: 0 <= i < |specs| && specs[i].SlotSpec? && LedgerLeft(s, p, specs[i], spent, ttl, now) ==>
      LedgerLeft(s, q, specs[i], spent, ttl, now);
  }

  lemma BucketsSame(s: Store, specs: seq<Spec>, p: Store, q: Store, spent: bool, ttl: int, now: int)
    requires q.epochs == p.epochs && forall key :: q.CellOf(key) == p.CellOf(key)
    requires Usable(specs) && BucketsLeft(s, specs, p, spent, ttl, now)
    ensures BucketsLeft(s, specs, q, spent, ttl, now)
  {
    forall i | 0 <= i < |specs| && specs[i].BucketSpec? ensures BucketLeft(s, q, specs[i], spent, ttl, now) {
      assert BucketLeft(s, p, specs[i], spent, ttl, now);
      if spent {
        var epochs: nat :| ClaimedAfter(s, p, specs[i], epochs, ttl, now);
        assert ClaimedAfter(s, q, specs[i], epochs, ttl, now);
      }
    }
  }
}
