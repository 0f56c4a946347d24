/**
 * The claim of a list of budgets, in two phases: a check that spends nothing and a write
 * that depends on whether the check found every cost covered.
 */
module MultiLimit {
  import opened Numbers
  import opened TokenBucket
  import opened Buckets
  import opened Slots
  import opened Freeze

  datatype Kept = Kept(bucket: Option<Entry<Bucket>>, marks: map<string, Entry<Mark>>)

  /** The part of the store that admission reads and writes. */
  datatype Store = Store(
    cells: map<string, Kept>,
    epochs: nat,
    ledgers: map<string, Ledger>,
    freezes: map<string, FreezeCell>)
  {
    function CellOf(key: string): Cell {
      if key in cells then Cell(cells[key].bucket, cells[key].marks, epochs) else Cell(None, map[], epochs)
    }

    function LedgerOf(key: string): Ledger {
      if key in ledgers then ledgers[key] else NO_LEDGER
    }

    function FreezeOf(key: string): FreezeCell {
      if key in freezes then freezes[key] else NO_FREEZE
    }

    function PutCell(key: string, c: Cell): Store {
      this.(cells := cells[key := Kept(c.bucket, c.marks)], epochs := c.epochs)
    }

    function PutLedger(key: string, l: Ledger): Store {
      this.(ledgers := ledgers[key := l])
    }

    /** Reaps a ledger that is there; an absent one stays absent. */
    function ReapLedger(key: string, expireTime: int, now: int): Store {
      if key in ledgers then PutLedger(key, Reap(ledgers[key], expireTime, now)) else this
    }

    function PutFreeze(key: string, f: FreezeCell): Store {
      this.(freezes := freezes[key := f])
    }
  }

  datatype Spec =
    | BucketSpec(key: string, freezeKey: string, cost: real, cfg: Config, mark: Option<ClaimMark>)
    | SlotSpec(key: string, freezeKey: string, cost: real, slotCfg: SlotConfig, slotId: string)

  datatype SpecError = OfBucket(bucketError: BudgetError) | OfSlot(slotError: SlotError)

  function UnusableSpec(spec: Spec): Option<SpecError> {
    match spec
    case BucketSpec(_, _, cost, cfg, _) =>
      var e := UnusableBudget(cost, cfg);
      if e.Some? then Some(OfBucket(e.value)) else None
    case SlotSpec(_, _, cost, cfg, _) =>
      var e := UnusableSlot(cost, cfg);
      if e.Some? then Some(OfSlot(e.value)) else None
  }

  /** What the check phase read of a bucket, for the write phase. */
  datatype PlannedBucket = PlannedBucket(key: string, bal: Balance, cost: real, cfg: Config, mark: Option<ClaimMark>)

  datatype PlannedSlot = PlannedSlot(key: string, slotId: string, cost: real)

  datatype Plan = Plan(
    store: Store,
    acquired: bool,
    error: Option<SpecError>,
    waitTime: Option<int>,
    blockedBy: Option<string>,
    buckets: seq<PlannedBucket>,
    slots: seq<PlannedSlot>)

  /** The check phase takes in one more budget. */
  ghost function PlanSpec(p: Plan, spec: Spec, now: int): Plan {
    if p.error.Some? then p
    else if UnusableSpec(spec).Some? then p.(acquired := false, error := UnusableSpec(spec))
    else
      match spec
      case BucketSpec(key, _, cost, cfg, mark) =>
        var bal := p.store.CellOf(key).Reading(cfg, now);
        var planned := p.(buckets := p.buckets + [PlannedBucket(key, bal, cost, cfg, mark)]);
        if CoversCost(bal.tokens, cost, cfg.maxTokens) then planned
        else
          var wait := WaitTime(bal, cfg, cost, now);
          if p.waitTime.None? || wait > p.waitTime.value
          then planned.(acquired := false, waitTime := Some(wait), blockedBy := Some(key))
          else planned.(acquired := false)
      case SlotSpec(key, _, cost, cfg, slotId) =>
        var checked := p.(store := p.store.ReapLedger(key, now - cfg.requestTtl, now));
        if checked.store.LedgerOf(key).Occupancy(slotId, now) + cost > cfg.maxConcurrency
        then checked.(acquired := false, blockedBy := if p.blockedBy.None? then Some(key) else p.blockedBy)
        else checked.(slots := p.slots + [PlannedSlot(key, slotId, cost)])
  }

  ghost function PlanAll(s: Store, specs: seq<Spec>, now: int): Plan
    decreases |specs|
  {
    if specs == [] then Plan(s, true, None, None, None, [], [])
    else PlanSpec(PlanAll(s, specs[..|specs| - 1], now), specs[|specs| - 1], now)
  }

  /** Writes a planned balance: spent, if the whole list admitted, or only refilled. */
  function PutBucket(s: Store, b: PlannedBucket, spend: bool, ttl: int, now: int): Store
    requires b.cfg.Usable()
  {
    var c := s.CellOf(b.key);
    s.PutCell(b.key,
      if spend then Commit(c, b.bal, b.cost, b.cfg, b.mark, ttl, now) else c.Write(b.bal, BucketTtl(ttl, b.cfg), now))
  }

  function CommitSlot(s: Store, p: PlannedSlot, ttl: int, now: int): Store {
    s.PutLedger(p.key, ClaimSlot(s.LedgerOf(p.key), p.slotId, p.cost, ttl, now))
  }

  predicate AllUsable(bs: seq<PlannedBucket>) {
    forall i :: 0 <= i < |bs| ==> bs[i].cfg.Usable()
  }

  function PutBuckets(s: Store, bs: seq<PlannedBucket>, spend: bool, ttl: int, now: int): Store
    requires AllUsable(bs)
    decreases |bs|
  {
    if bs == [] then s
    else PutBucket(PutBuckets(s, bs[..|bs| - 1], spend, ttl, now), bs[|bs| - 1], spend, ttl, now)
  }

  function CommitSlots(s: Store, ps: seq<PlannedSlot>, ttl: int, now: int): Store
    decreases |ps|
  {
    if ps == [] then s else CommitSlot(CommitSlots(s, ps[..|ps| - 1], ttl, now), ps[|ps| - 1], ttl, now)
  }

  datatype MultiResult =
    | AllAcquired
    | Refused(waitTime: int, blockedBy: Option<string>)
    | UnusableSpecs(error: SpecError)

  lemma {:induction false} PlansAreUsable(s: Store, specs: seq<Spec>, now: int)
    ensures AllUsable(PlanAll(s, specs, now).buckets)
    decreases |specs|
  {
    if specs != [] {
      PlansAreUsable(s, specs[..|specs| - 1], now);
    }
  }

  ghost function AcquireMultiLimit(s: Store, specs: seq<Spec>, ttl: int, now: int): (Store, MultiResult) {
    PlansAreUsable(s, specs, now);
    var p := PlanAll(s, specs, now);
    if p.error.Some? then (p.store, UnusableSpecs(p.error.value))
    else if !p.acquired then
      (PutBuckets(p.store, p.buckets, false, ttl, now),
       Refused(if p.waitTime.Some? then p.waitTime.value else 0, p.blockedBy))
    else
      (CommitSlots(PutBuckets(p.store, p.buckets, true, ttl, now), p.slots, ttl, now), AllAcquired)
  }

  /** A refund in the store; three cases leave it unchanged. */
  function RefundIn(s: Store, key: string, cost: real, maxTokens: real, freezeKey: string, now: int): Store {
    if cost < 0.0 || (freezeKey != "" && Emptied(s.FreezeOf(freezeKey), now)) || s.CellOf(key).Stored(now).None? then s
    else s.PutCell(key, Credit(s.CellOf(key), cost, maxTokens, now))
  }

  function ReleaseIn(s: Store, key: string, id: string, now: int): Store {
    if key in s.ledgers then s.PutLedger(key, ReleaseSlot(s.ledgers[key], id, now)) else s
  }

  /** Hands one budget back. */
  function ReleaseSpec(s: Store, spec: Spec, now: int): Store {
    match spec
    case BucketSpec(key, freezeKey, cost, cfg, _) => RefundIn(s, key, cost, cfg.maxTokens, freezeKey, now)
    case SlotSpec(key, _, _, _, slotId) => ReleaseIn(s, key, slotId, now)
  }

  function ReleaseMultiLimit(s: Store, specs: seq<Spec>, now: int): Store
    decreases |specs|
  {
    if specs == [] then s
    else ReleaseSpec(ReleaseMultiLimit(s, specs[..|specs| - 1], now), specs[|specs| - 1], now)
  }
}
