/**
 * The concurrency ledger: a sorted set of slots scored by the time each was claimed
 * or last touched, and a parallel hash of what each costs, under two keys that
 * expire separately.
 */
module Slots {
  import opened Numbers
  import opened Buckets

  datatype SlotConfig = SlotConfig(maxConcurrency: real, requestTtl: int)

  datatype SlotError = BadMaxConcurrency | BadSlotCost | BadRequestTtl

  function UnusableSlot(cost: real, cfg: SlotConfig): (e: Option<SlotError>)
    ensures e.None? <==> cfg.maxConcurrency > 0.0 && cost >= 0.0 && cfg.requestTtl > 0
  {
    if !(cfg.maxConcurrency > 0.0) then Some(BadMaxConcurrency)
    else if !(cost >= 0.0) then Some(BadSlotCost)
    else if !(cfg.requestTtl > 0) then Some(BadRequestTtl)
    else None
  }

  /** The sum of a hash's values. */
  ghost function Total(m: map<string, real>): real
    decreases |m|
  {
    if m == map[] then 0.0
    else
      var k :| k in m;
      m[k] + Total(m - {k})
  }

  lemma {:induction false} TotalSplit(m: map<string, real>, k: string)
    requires k in m
    ensures Total(m) == m[k] + Total(m - {k})
    decreases |m|
  {
    var p :| p in m && Total(m) == m[p] + Total(m - {p});
    if p != k {
      TotalSplit(m - {p}, k);
      TotalSplit(m - {k}, p);
      assert m - {p} - {k} == m - {k} - {p};
    }
  }

  lemma TotalPut(m: map<string, real>, k: string, v: real)
    ensures Total(m[k := v]) == v + Total(m - {k})
  {
    TotalSplit(m[k := v], k);
    assert m[k := v] - {k} == m - {k};
  }

  lemma {:induction false} TotalPart(part: map<string, real>, whole: map<string, real>)
    requires forall k :: k in part ==> k in whole && part[k] == whole[k]
    requires forall k :: k in whole ==> whole[k] >= 0.0
    ensures Total(part) <= Total(whole)
    decreases |whole|
  {
    if k :| k in whole {
      TotalSplit(whole, k);
      TotalPart(part - {k}, whole - {k});
      if k in part {
        TotalSplit(part, k);
      } else {
        assert part - {k} == part;
      }
    } else {
      assert part == map[];
    }
  }

  datatype Ledger = Ledger(slots: Option<Entry<map<string, int>>>, costs: Option<Entry<map<string, real>>>)
  {
    function Members(now: int): map<string, int> {
      if slots.Some? && now < slots.value.expiresAt then slots.value.value else map[]
    }

    function Costs(now: int): map<string, real> {
      if costs.Some? && now < costs.value.expiresAt then costs.value.value else map[]
    }

    /** Members and their costs without `except`; one for a cost that is not there. */
    function Held(except: string, now: int): map<string, real> {
      map id | id in Members(now) && id != except :: if id in Costs(now) then Costs(now)[id] else 1.0
    }

    /** The total over all members but `except`. */
    ghost function Occupancy(except: string, now: int): real {
      Total(Held(except, now))
    }
  }

  const NO_LEDGER: Ledger := Ledger(None, None)

  /** An empty map is an absent key. */
  function DropIfEmpty<V>(e: Option<Entry<map<string, V>>>): Option<Entry<map<string, V>>> {
    if e.Some? && e.value.value == map[] then None else e
  }

  /** Removes `ids` from both keys, as far as they are alive. */
  function Remove(l: Ledger, ids: set<string>, now: int): Ledger {
    Ledger(
      DropIfEmpty(if l.slots.Some? && now < l.slots.value.expiresAt
        then Some(l.slots.value.(value := l.slots.value.value - ids)) else l.slots),
      DropIfEmpty(if l.costs.Some? && now < l.costs.value.expiresAt
        then Some(l.costs.value.(value := l.costs.value.value - ids)) else l.costs))
  }

  function Lapsed(l: Ledger, expireTime: int, now: int): set<string> {
    set id | id in l.Members(now) && l.Members(now)[id] <= expireTime :: id
  }

  /** Drops the slots stamped at or before `expireTime`: a crashed holder's. */
  function Reap(l: Ledger, expireTime: int, now: int): Ledger {
    if !(l.slots.Some? && now < l.slots.value.expiresAt) then l
    else Remove(l, Lapsed(l, expireTime, now), now)
  }

  function ClaimSlot(l: Ledger, id: string, cost: real, ttl: int, now: int): Ledger {
    Ledger(
      Some(Entry(l.Members(now)[id := now], now + ttl * 1000)),
      Some(Entry(l.Costs(now)[id := cost], now + ttl * 1000)))
  }

  datatype SlotResult =
    | SlotAcquired(current: real)
    | SlotFull(current: real)
    | SlotUnusable(error: SlotError)

  /** The decision and the claim, once the ledger is reaped. */
  ghost function AdmitSlot(reaped: Ledger, cost: real, id: string, maxConcurrency: real, ttl: int,
        now: int): (Ledger, SlotResult) {
    var current := reaped.Occupancy(id, now);
    if current + cost > maxConcurrency then (reaped, SlotFull(current))
    else (ClaimSlot(reaped, id, cost, ttl, now), SlotAcquired(current + cost))
  }

  ghost function AcquireSlot(l: Ledger, cost: real, id: string, cfg: SlotConfig, ttl: int, now: int): (Ledger,
        SlotResult) {
    var error := UnusableSlot(cost, cfg);
    if error.Some? then (l, SlotUnusable(error.value))
    else AdmitSlot(Reap(l, now - cfg.requestTtl, now), cost, id, cfg.maxConcurrency, ttl, now)
  }

  function ReleaseSlot(l: Ledger, id: string, now: int): Ledger {
    Remove(l, {id}, now)
  }

  /** Renews the lease of a slot that is held. */
  function TouchSlot(l: Ledger, id: string, ttl: int, now: int): (Ledger, bool) {
    if id !in l.Members(now) then (l, false)
    else
      (Ledger(
        Some(Entry(l.Members(now)[id := now], now + ttl * 1000)),
        if l.costs.Some? && now < l.costs.value.expiresAt
        then Some(l.costs.value.(expiresAt := now + ttl * 1000)) else l.costs), true)
  }

  // --------------------------------------------------------------- whole runs

  /** `ReapStep` is a claim of several budgets, or of a queued request, that was refused. */
  datatype SlotStep =
    | ClaimStep(cost: real, id: string, cfg: SlotConfig, ttl: int, now: int)
    | ReapStep(requestTtl: int, now: int)
    | ReleaseStep(id: string, now: int)
    | TouchStep(id: string, ttl: int, now: int)

  ghost function ApplySlot(l: Ledger, step: SlotStep): Ledger {
    match step
    case ClaimStep(cost, id, cfg, ttl, now) => AcquireSlot(l, cost, id, cfg, ttl, now).0
    case ReapStep(requestTtl, now) => Reap(l, now - requestTtl, now)
    case ReleaseStep(id, now) => ReleaseSlot(l, id, now)
    case TouchStep(id, ttl, now) => TouchSlot(l, id, ttl, now).0
  }

  ghost function RunSlots(l: Ledger, steps: seq<SlotStep>): Ledger
    decreases |steps|
  {
    if steps == [] then l else RunSlots(ApplySlot(l, steps[0]), steps[1..])
  }

  /** Every stored slot has its cost entry and no cost is left over; both keys expire together. */
  ghost predicate Paired(l: Ledger) {
    && (l.slots.None? <==> l.costs.None?)
    && (l.slots.Some? ==>
        && l.slots.value.value.Keys == l.costs.value.value.Keys
        && l.slots.value.expiresAt == l.costs.value.expiresAt
        && forall id :: id in l.costs.value.value ==> l.costs.value.value[id] >= 0.0)
  }

  ghost predicate Capped(l: Ledger, maxConcurrency: real) {
    && Paired(l)
    && (l.costs.Some? ==> Total(l.costs.value.value) <= maxConcurrency)
  }

  lemma RemoveCapped(l: Ledger, ids: set<string>, now: int, maxConcurrency: real)
    requires Capped(l, maxConcurrency)
    ensures Capped(Remove(l, ids, now), maxConcurrency)
  {
    if l.costs.Some? && now < l.costs.value.expiresAt {
      TotalPart(l.costs.value.value - ids, l.costs.value.value);
      assert (l.slots.value.value - ids).Keys == (l.costs.value.value - ids).Keys;
    }
  }

  /** With every slot costed, the occupancy is the total of the other costs. */
  lemma OccupancyIsTotal(l: Ledger, id: string, now: int)
    requires Paired(l)
    ensures l.Occupancy(id, now) == Total(l.Costs(now) - {id})
  {
    assert l.Held(id, now) == l.Costs(now) - {id};
  }

  lemma ReapCapped(l: Ledger, expireTime: int, now: int, maxConcurrency: real)
    requires Capped(l, maxConcurrency)
    ensures Capped(Reap(l, expireTime, now), maxConcurrency)
  {
    RemoveCapped(l, Lapsed(l, expireTime, now), now, maxConcurrency);
  }

  /** A claim that fits beside the others keeps the total within the ceiling. */
  lemma ClaimCapped(l: Ledger, id: string, cost: real, ttl: int, now: int, maxConcurrency: real)
    requires Paired(l) && cost >= 0.0 && l.Occupancy(id, now) + cost <= maxConcurrency
    ensures Capped(ClaimSlot(l, id, cost, ttl, now), maxConcurrency)
  {
    OccupancyIsTotal(l, id, now);
    TotalPut(l.Costs(now), id, cost);
    assert l.Members(now)[id := now].Keys == l.Costs(now)[id := cost].Keys;
  }

  lemma TouchCapped(l: Ledger, id: string, ttl: int, now: int, maxConcurrency: real)
    requires Capped(l, maxConcurrency)
    ensures Capped(TouchSlot(l, id, ttl, now).0, maxConcurrency)
  {
    if id in l.Members(now) {
      assert l.Members(now)[id := now].Keys == l.Members(now).Keys;
    }
  }

  /** An acquisition ends with the ledger as it was, reaped, or reaped and claimed. */
  lemma AcquireOutcome(l: Ledger, cost: real, id: string, cfg: SlotConfig, ttl: int, now: int)
    ensures var after, reaped := AcquireSlot(l, cost, id, cfg, ttl, now).0, Reap(l, now - cfg.requestTtl, now);
      || after == l
      || after == reaped
      || (cost >= 0.0 && reaped.Occupancy(id, now) + cost <= cfg.maxConcurrency && after == ClaimSlot(reaped, id, cost, ttl, now))
  {
  }

  lemma OutcomeCapped(l: Ledger, reaped: Ledger, after: Ledger, cost: real, id: string, ttl: int, now: int,
        maxConcurrency: real)
    requires Capped(l, maxConcurrency) && Capped(reaped, maxConcurrency)
    requires after == l || after == reaped
      || (cost >= 0.0 && reaped.Occupancy(id, now) + cost <= maxConcurrency && after == ClaimSlot(reaped, id, cost, ttl, now))
    ensures Capped(after, maxConcurrency)
  {
    if after != l && after != reaped {
      ClaimCapped(reaped, id, cost, ttl, now, maxConcurrency);
    }
  }

  lemma AcquireCapped(l: Ledger, cost: real, id: string, cfg: SlotConfig, ttl: int, now: int)
    requires Capped(l, cfg.maxConcurrency)
    ensures Capped(AcquireSlot(l, cost, id, cfg, ttl, now).0, cfg.maxConcurrency)
  {
    var after, reaped := AcquireSlot(l, cost, id, cfg, ttl, now).0, Reap(l, now - cfg.requestTtl, now);
    AcquireOutcome(l, cost, id, cfg, ttl, now);
    ReapCapped(l, now - cfg.requestTtl, now, cfg.maxConcurrency);
    OutcomeCapped(l, reaped, after, cost, id, ttl, now, cfg.maxConcurrency);
  }

  lemma ApplyCapped(l: Ledger, step: SlotStep, maxConcurrency: real)
    requires Capped(l, maxConcurrency)
    requires step.ClaimStep? ==> step.cfg.maxConcurrency == maxConcurrency
    ensures Capped(ApplySlot(l, step), maxConcurrency)
  {
    match step
    case ClaimStep(cost, id, cfg, ttl, now) =>
      AcquireCapped(l, cost, id, cfg, ttl, now);
    case ReapStep(requestTtl, now) =>
      ReapCapped(l, now - requestTtl, now, maxConcurrency);
    case ReleaseStep(id, now) =>
      RemoveCapped(l, {id}, now, maxConcurrency);
    case TouchStep(id, ttl, now) =>
      TouchCapped(l, id, ttl, now, maxConcurrency);
  }

  lemma {:induction false} RunCapped(l: Ledger, steps: seq<SlotStep>, maxConcurrency: real)
    requires Capped(l, maxConcurrency)
    requires forall i :: 0 <= i < |steps| && steps[i].ClaimStep? ==> steps[i].cfg.maxConcurrency == maxConcurrency
    ensures Capped(RunSlots(l, steps), maxConcurrency)
    decreases |steps|
  {
    if steps != [] {
      ApplyCapped(l, steps[0], maxConcurrency);
      RunCapped(ApplySlot(l, steps[0]), steps[1..], maxConcurrency);
    }
  }

  lemma CappedReads(l: Ledger, maxConcurrency: real, now: int, id: string)
    requires Capped(l, maxConcurrency) && maxConcurrency >= 0.0
    ensures Total(l.Costs(now)) <= maxConcurrency && l.Members(now).Keys == l.Costs(now).Keys && l.Occupancy(id, now) <= maxConcurrency
  {
    OccupancyIsTotal(l, id, now);
    TotalPart(l.Costs(now) - {id}, l.Costs(now));
  }

  /**
   * In every run under one ceiling the ledger never holds more than it, and every
   * member it shows at any time has its own cost entry, whatever was claimed, refused,
   * released, touched, reaped or left to expire.
   */
  lemma ConcurrencyIsCapped(steps: seq<SlotStep>, maxConcurrency: real, now: int, id: string)
    requires maxConcurrency >= 0.0
    requires forall i :: 0 <= i < |steps| && steps[i].ClaimStep? ==> steps[i].cfg.maxConcurrency == maxConcurrency
    ensures var l := RunSlots(NO_LEDGER, steps);
      && Total(l.Costs(now)) <= maxConcurrency
      && l.Members(now).Keys == l.Costs(now).Keys
      && l.Occupancy(id, now) <= maxConcurrency
  {
    RunCapped(NO_LEDGER, steps, maxConcurrency);
    CappedReads(RunSlots(NO_LEDGER, steps), maxConcurrency, now, id);
  }

  /** Reaping drops the slots whose lease is over and no other: exactly those, with their costs. */
  lemma ReapedExactly(l: Ledger, expireTime: int, now: int, id: string)
    requires Paired(l)
    ensures var r := Reap(l, expireTime, now);
      && (id in r.Members(now) <==> id in l.Members(now) && l.Members(now)[id] > expireTime)
      && (id in r.Members(now) ==> r.Members(now)[id] == l.Members(now)[id] && id in r.Costs(now) && r.Costs(now)[id] == l.Costs(now)[id])
      && (id !in r.Members(now) ==> id !in r.Costs(now))
  {
    if l.slots.Some? && now < l.slots.value.expiresAt {
      assert id in Lapsed(l, expireTime, now) <==> id in l.Members(now) && l.Members(now)[id] <= expireTime;
    }
  }

  // --------------------------------------------------- a young slot is not lost

  /** Steps in order of time, under one lease and the default key lifetime. */
  ghost predicate Timely(steps: seq<SlotStep>, requestTtl: int, first: int, last: int) {
    && (forall i :: 0 <= i < |steps| ==>
        && first <= steps[i].now <= last
        && (steps[i].ClaimStep? ==> steps[i].ttl == DAY_SECONDS && steps[i].cfg.requestTtl == requestTtl)
        && (steps[i].TouchStep? ==> steps[i].ttl == DAY_SECONDS)
        && (steps[i].ReapStep? ==> steps[i].requestTtl == requestTtl))
    && forall i, j :: 0 <= i < j < |steps| ==> steps[i].now <= steps[j].now
  }

  /** No stamp is ahead of the clock, and the key outlives every slot's lease. */
  ghost predicate Stamped(l: Ledger, last: int) {
    l.slots.Some? ==>
      && l.slots.value.expiresAt <= last + DAY_SECONDS * 1000
      && forall id :: id in l.slots.value.value ==>
        && l.slots.value.value[id] <= last
        && l.slots.value.value[id] + DAY_SECONDS * 1000 <= l.slots.value.expiresAt
  }

  /** `id` holds a slot stamped no earlier than `stamp`. */
  ghost predicate Holds(l: Ledger, id: string, stamp: int) {
    l.slots.Some? && id in l.slots.value.value && l.slots.value.value[id] >= stamp
  }

  lemma RemoveKeepsOthers(l: Ledger, ids: set<string>, now: int, last: int, id: string, stamp: int)
    requires Stamped(l, last) && Holds(l, id, stamp) && id !in ids
    ensures Stamped(Remove(l, ids, now), last) && Holds(Remove(l, ids, now), id, stamp)
    ensures Remove(l, ids, now).slots.value.expiresAt == l.slots.value.expiresAt
  {
    assert id in l.slots.value.value - ids;
  }

  lemma ReapKeepsYoung(l: Ledger, expireTime: int, now: int, last: int, id: string, stamp: int)
    requires Stamped(l, last) && Holds(l, id, stamp) && expireTime < stamp
    ensures Stamped(Reap(l, expireTime, now), last) && Holds(Reap(l, expireTime, now), id, stamp)
    ensures Reap(l, expireTime, now).slots.value.expiresAt == l.slots.value.expiresAt
  {
    RemoveKeepsOthers(l, Lapsed(l, expireTime, now), now, last, id, stamp);
  }

  lemma ApplyKeepsYoung(l: Ledger, step: SlotStep, requestTtl: int, last: int, id: string, stamp: int)
    requires Timely([step], requestTtl, last, step.now) && requestTtl <= DAY_SECONDS * 1000
    requires Stamped(l, last) && Holds(l, id, stamp) && step.now < stamp + requestTtl
    requires !(step.ReleaseStep? && step.id == id)
    ensures Stamped(ApplySlot(l, step), step.now) && Holds(ApplySlot(l, step), id, stamp)
    ensures id in ApplySlot(l, step).Members(step.now)
  {
    assert step == [step][0];
    assert step.now < l.slots.value.expiresAt;
    match step
    case ClaimStep(_, _, cfg, _, now) =>
      ReapKeepsYoung(l, now - cfg.requestTtl, now, last, id, stamp);
    case ReapStep(_, now) =>
      ReapKeepsYoung(l, now - requestTtl, now, last, id, stamp);
    case ReleaseStep(other, now) =>
      RemoveKeepsOthers(l, {other}, now, last, id, stamp);
    case TouchStep(_, _, _) =>
  }

  lemma ApplyStamped(l: Ledger, step: SlotStep, requestTtl: int, last: int)
    requires Timely([step], requestTtl, last, step.now) && Stamped(l, last)
    ensures Stamped(ApplySlot(l, step), step.now)
  {
    assert step == [step][0];
  }

  lemma {:induction false} RunStamped(l: Ledger, steps: seq<SlotStep>, requestTtl: int, first: int, last: int)
    requires Timely(steps, requestTtl, first, last) && first <= last && Stamped(l, first)
    ensures Stamped(RunSlots(l, steps), last)
    decreases |steps|
  {
    if steps != [] {
      ApplyStamped(l, steps[0], requestTtl, first);
      RunStamped(ApplySlot(l, steps[0]), steps[1..], requestTtl, steps[0].now, last);
    }
  }

  lemma {:induction false} RunKeepsYoung(l: Ledger, steps: seq<SlotStep>, requestTtl: int, first: int, last: int,
        id: string, stamp: int)
    requires Timely(steps, requestTtl, first, last) && requestTtl <= DAY_SECONDS * 1000
    requires Stamped(l, first) && Holds(l, id, stamp) && first <= last < stamp + requestTtl
    requires forall i :: 0 <= i < |steps| ==> !(steps[i].ReleaseStep? && steps[i].id == id)
    ensures Holds(RunSlots(l, steps), id, stamp) && id in RunSlots(l, steps).Members(last)
    decreases |steps|
  {
    if steps != [] {
      ApplyKeepsYoung(l, steps[0], requestTtl, first, id, stamp);
      RunKeepsYoung(ApplySlot(l, steps[0]), steps[1..], requestTtl, steps[0].now, last, id, stamp);
    }
  }

  /** The step leaves its slot held: an acquired claim, or a touch that finds it. */
  ghost predicate Secures(l: Ledger, step: SlotStep) {
    match step
    case ClaimStep(cost, id, cfg, ttl, now) => AcquireSlot(l, cost, id, cfg, ttl, now).1.SlotAcquired?
    case TouchStep(id, ttl, now) => TouchSlot(l, id, ttl, now).1
    case _ => false
  }

  /** A touch finds exactly a slot that is held, and changes its stamp and nobody else's, nor any cost. */
  lemma TouchRenewsOne(l: Ledger, id: string, ttl: int, now: int)
    requires ttl > 0
    ensures var (after, touched) := TouchSlot(l, id, ttl, now);
      && (touched <==> id in l.Members(now))
      && after.Members(now) == (if touched then l.Members(now)[id := now] else l.Members(now))
      && after.Costs(now) == l.Costs(now)
      && (touched && l.costs.Some? && now < l.costs.value.expiresAt ==>
            after.slots.value.expiresAt == after.costs.value.expiresAt == now + ttl * 1000)
  {
  }

  lemma SecuresHold(l: Ledger, step: SlotStep)
    requires Secures(l, step)
    ensures step.ClaimStep? || step.TouchStep?
    ensures Holds(ApplySlot(l, step), step.id, step.now)
  {
  }

  /**
   * A slot claimed or touched is still held at any later time inside the lease counted
   * from then: in the meantime only its own release can remove it, since the reaper and
   * the key's expiry both come later.
   */
  lemma YoungSlotLeavesOnlyByRelease(before: seq<SlotStep>, taking: SlotStep, after: seq<SlotStep>, requestTtl: int,
        origin: int, last: int)
    requires requestTtl <= DAY_SECONDS * 1000 && origin <= taking.now <= last < taking.now + requestTtl
    requires Timely(before, requestTtl, origin, taking.now) && Timely([taking], requestTtl, taking.now, taking.now)
    requires Timely(after, requestTtl, taking.now, last)
    requires taking.ClaimStep? || taking.TouchStep?
    requires Secures(RunSlots(NO_LEDGER, before), taking)
    requires forall i :: 0 <= i < |after| ==> !(after[i].ReleaseStep? && after[i].id == taking.id)
    ensures taking.id in RunSlots(ApplySlot(RunSlots(NO_LEDGER, before), taking), after).Members(last)
  {
    var l := RunSlots(NO_LEDGER, before);
    RunStamped(NO_LEDGER, before, requestTtl, origin, taking.now);
    ApplyStamped(l, taking, requestTtl, taking.now);
    SecuresHold(l, taking);
    RunKeepsYoung(ApplySlot(l, taking), after, requestTtl, taking.now, last, taking.id, taking.now);
  }
}
