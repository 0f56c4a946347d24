/**
 * Runs of the whole store: any number of buckets and ledgers, claimed one at a time or
 * several in one operation. Seen through one key, such a run is a run of that key's own
 * bucket or ledger, so what holds of every run of one holds here: the rate limit of a
 * bucket and the ceiling of a ledger, whichever claims they are part of.
 */
module StoreRuns {
  import opened Numbers
  import opened TokenBucket
  import opened Buckets
  import opened BucketRuns
  import opened RateWindow
  import opened Slots
  import opened Freeze
  import opened MultiLimit
  import opened AllOrNothing
  import opened ClaimRelease

  const EMPTY_STORE: Store := Store(map[], 0, map[], map[])

  datatype StoreStep =
    | BucketOp(key: string, step: Step)
    | LedgerOp(key: string, slotStep: SlotStep)
    | FreezeOp(key: string, freezeStep: FreezeStep)
    | ClaimAll(specs: seq<Spec>, ttl: int, at: int)
    | ReleaseAll(specs: seq<Spec>, at: int)
  {
    function Now(): int {
      match this
      case BucketOp(_, step) => step.now
      case LedgerOp(_, step) => step.now
      case FreezeOp(_, step) => step.now
      case ClaimAll(_, _, at) => at
      case ReleaseAll(_, at) => at
    }
  }

  ghost function ApplyStore(s: Store, step: StoreStep): Store {
    match step
    case BucketOp(key, st) => s.PutCell(key, Apply(s.CellOf(key), st))
    case LedgerOp(key, st) => s.PutLedger(key, ApplySlot(s.LedgerOf(key), st))
    case FreezeOp(key, st) => s.PutFreeze(key, ApplyFreeze(s.FreezeOf(key), st))
    case ClaimAll(specs, ttl, at) => AcquireMultiLimit(s, specs, ttl, at).0
    case ReleaseAll(specs, at) => ReleaseMultiLimit(s, specs, at)
  }

  ghost function RunStore(s: Store, steps: seq<StoreStep>): Store
    decreases |steps|
  {
    if steps == [] then s else RunStore(ApplyStore(s, steps[0]), steps[1..])
  }

  /** Lists as clients make them: of distinct, usable budgets. */
  ghost predicate Regular(step: StoreStep) {
    match step
    case ClaimAll(specs, _, _) => Distinct(specs) && Usable(specs)
    case ReleaseAll(specs, _) => Distinct(specs)
    case _ => true
  }

  // ------------------------------------------------------ one bucket's view of a run

  /** Other buckets taking epochs. */
  function Mints(n: nat, now: int): seq<Step> { seq(n, i => MintStep(now)) }

  lemma {:induction false} MintsOnlyMint(c: Cell, n: nat, now: int)
    ensures RunSteps(c, Mints(n, now)) == c.(epochs := c.epochs + n)
    ensures Admitted(c, Mints(n, now)) == 0.0 && Charged(c, Mints(n, now)) == 0.0 && Expiries(c, Mints(n, now)) == 0
    decreases n
  {
    if n > 0 {
      assert Mints(n, now)[1..] == Mints(n - 1, now);
      MintsOnlyMint(c.(epochs := c.epochs + 1), n - 1, now);
    }
  }

  lemma {:induction false} RunsJoin(c: Cell, a: seq<Step>, b: seq<Step>)
    ensures RunSteps(c, a + b) == RunSteps(RunSteps(c, a), b)
    ensures Admitted(c, a + b) == Admitted(c, a) + Admitted(RunSteps(c, a), b)
    ensures Charged(c, a + b) == Charged(c, a) + Charged(RunSteps(c, a), b)
    ensures Expiries(c, a + b) == Expiries(c, a) + Expiries(RunSteps(c, a), b)
    decreases |a|
  {
    if a == [] {
      assert a + b == b;
    } else {
      assert (a + b)[1..] == a[1..] + b;
      RunsJoin(Apply(c, a[0]), a[1..], b);
    }
  }

  lemma EpochsGrow(c: Cell, step: Step)
    ensures Apply(c, step).epochs >= c.epochs
  {
  }

  /** What a list charges the bucket under `key`; distinct lists name it at most once. */
  function CostTo(specs: seq<Spec>, key: string): real
    decreases |specs|
  {
    if specs == [] then 0.0
    else if specs[0].BucketSpec? && specs[0].key == key then specs[0].cost
    else CostTo(specs[1..], key)
  }

  lemma {:induction false} CostOf(specs: seq<Spec>, i: nat, key: string)
    requires Distinct(specs)
    ensures !NamesBucket(specs, key) ==> CostTo(specs, key) == 0.0
    ensures i < |specs| && specs[i].BucketSpec? && specs[i].key == key ==> CostTo(specs, key) == specs[i].cost
    decreases |specs|
  {
    if specs != [] && !(specs[0].BucketSpec? && specs[0].key == key) {
      var rest := specs[1..];
      assert forall k :: 0 <= k < |rest| ==> rest[k] == specs[k + 1];
      CostOf(rest, if i > 0 then i - 1 else |rest|, key);
    }
  }

  /** The cost a step admits from the bucket under `key`. */
  ghost function StoreAdmits(s: Store, step: StoreStep, key: string): real {
    match step
    case BucketOp(k, st) => if k == key then Admits(s.CellOf(key), st) else 0.0
    case ClaimAll(specs, ttl, at) => if AcquireMultiLimit(s, specs, ttl, at).1.AllAcquired? then CostTo(specs, key) else 0.0
    case _ => 0.0
  }

  ghost function StoreAdmitted(s: Store, steps: seq<StoreStep>, key: string): real
    decreases |steps|
  {
    if steps == [] then 0.0 else StoreAdmits(s, steps[0], key) + StoreAdmitted(ApplyStore(s, steps[0]), steps[1..], key)
  }

  /** What a step takes from the bucket under `key`, less what it gives back. */
  ghost function StoreCharge(s: Store, step: StoreStep, key: string): real {
    match step
    case BucketOp(k, st) => if k == key then Charge(s.CellOf(key), st) else 0.0
    case ReleaseAll(specs, at) => TokensOf(s.CellOf(key)) - TokensOf(ReleaseMultiLimit(s, specs, at).CellOf(key))
    case _ => StoreAdmits(s, step, key)
  }

  ghost function StoreCharged(s: Store, steps: seq<StoreStep>, key: string): real
    decreases |steps|
  {
    if steps == [] then 0.0 else StoreCharge(s, steps[0], key) + StoreCharged(ApplyStore(s, steps[0]), steps[1..], key)
  }

  /** Whether a step that writes the bucket under `key` finds it expired. */
  ghost function StoreExpires(s: Store, step: StoreStep, key: string): nat {
    var c := s.CellOf(key);
    if (match step
        case BucketOp(k, st) => k == key && Writes(c, st)
        case ClaimAll(specs, _, _) => NamesBucket(specs, key)
        case _ => false)
      && c.bucket.Some? && step.Now() >= c.bucket.value.expiresAt then 1 else 0
  }

  ghost function StoreExpiries(s: Store, steps: seq<StoreStep>, key: string): nat
    decreases |steps|
  {
    if steps == [] then 0 else StoreExpires(s, steps[0], key) + StoreExpiries(ApplyStore(s, steps[0]), steps[1..], key)
  }

  /** Whatever the step does to the bucket under `key`, it does under one configuration. */
  ghost predicate ChargesBy(step: StoreStep, key: string, cfg: Config, maxDebt: real) {
    match step
    case BucketOp(k, st) => k == key ==> Charges(st, cfg, maxDebt)
    case ClaimAll(specs, _, _) => forall i :: 0 <= i < |specs| && specs[i].BucketSpec? && specs[i].key == key ==> specs[i].cfg == cfg
    case ReleaseAll(specs, _) => forall i :: 0 <= i < |specs| && specs[i].BucketSpec? && specs[i].key == key ==> specs[i].cfg == cfg
    case _ => true
  }

  /** And it only claims or empties. */
  ghost predicate OnlyClaimsFrom(step: StoreStep, key: string, cfg: Config) {
    match step
    case BucketOp(k, st) => k == key ==> OnlyClaims(st, cfg)
    case ReleaseAll(specs, _) => !NamesBucket(specs, key)
    case _ => ChargesBy(step, key, cfg, 0.0)
  }

  /** `steps` is what the store's step is to the bucket under `key`. */
  ghost predicate Views(s: Store, step: StoreStep, key: string, steps: seq<Step>) {
    && RunSteps(s.CellOf(key), steps) == ApplyStore(s, step).CellOf(key)
    && Admitted(s.CellOf(key), steps) == StoreAdmits(s, step, key)
    && Charged(s.CellOf(key), steps) == StoreCharge(s, step, key)
    && Expiries(s.CellOf(key), steps) <= StoreExpires(s, step, key)
    && (forall i :: 0 <= i < |steps| ==> steps[i].now == step.Now())
    && (forall cfg, maxDebt :: ChargesBy(step, key, cfg, maxDebt) ==> forall i :: 0 <= i < |steps| ==> Charges(steps[i], cfg, maxDebt))
    && (forall cfg :: OnlyClaimsFrom(step, key, cfg) ==> AllOnlyClaim(steps, cfg))
  }

  lemma ViewElsewhere(s: Store, step: StoreStep, key: string) returns (steps: seq<Step>)
    requires s.epochs <= ApplyStore(s, step).epochs
    requires ApplyStore(s, step).CellOf(key) == s.CellOf(key).(epochs := ApplyStore(s, step).epochs)
    requires StoreAdmits(s, step, key) == 0.0 && StoreCharge(s, step, key) == 0.0
    ensures Views(s, step, key, steps)
  {
    var n := ApplyStore(s, step).epochs - s.epochs;
    steps := Mints(n, step.Now());
    MintsOnlyMint(s.CellOf(key), n, step.Now());
  }

  /** A declined claim writes the refilled balance and nothing else. */
  lemma DeclinedClaim(c: Cell, cfg: Config, ttl: int, now: int)
    requires cfg.Usable()
    ensures Acquire(c, cfg.maxTokens + cfg.maxTokens, cfg, None, ttl, now)
      == (c.Write(c.Reading(cfg, now), BucketTtl(ttl, cfg), now),
          Declined(WaitTime(c.Reading(cfg, now), cfg, cfg.maxTokens + cfg.maxTokens, now), c.Reading(cfg, now).tokens))
  {
    var origin := if c.Stored(now).Some? then c.Stored(now).value.bal else Fresh(cfg, now);
    RefillGrows(origin, cfg, now);
  }

  /** A claim in the middle of other buckets' epochs. */
  lemma ClaimAmongMints(c: Cell, before: nat, step: Step, after: nat)
    requires step.AcquireStep? && step.cost >= 0.0
    ensures var d := c.(epochs := c.epochs + before); var steps := Mints(before, step.now) + [step] + Mints(after, step.now);
      && RunSteps(c, steps) == Apply(d, step).(epochs := Apply(d, step).epochs + after)
      && Admitted(c, steps) == Admits(d, step) && Charged(c, steps) == Admits(d, step)
      && Expiries(c, steps) == Expires(c, step)
  {
    var d := c.(epochs := c.epochs + before);
    MintsOnlyMint(c, before, step.now);
    MintsOnlyMint(Apply(d, step), after, step.now);
    RunsJoin(c, Mints(before, step.now), [step] + Mints(after, step.now));
    RunsJoin(d, [step], Mints(after, step.now));
    assert [step][1..] == [];
    assert Mints(before, step.now) + [step] + Mints(after, step.now) == Mints(before, step.now) + ([step] + Mints(after, step.now));
  }

  /** `steps` all at `now` take the bucket from `c` to `d`, admit `cost`, and are claims under `cfg`. */
  ghost predicate Takes(c: Cell, steps: seq<Step>, d: Cell, cost: real, cfg: Config, now: int) {
    && RunSteps(c, steps) == d && Admitted(c, steps) == cost && Charged(c, steps) == cost
    && Expiries(c, steps) <= (if c.bucket.Some? && now >= c.bucket.value.expiresAt then 1 else 0)
    && (forall i :: 0 <= i < |steps| ==> steps[i].now == now)
    && AllOnlyClaim(steps, cfg)
  }

  lemma SpentView(c: Cell, spec: Spec, epochs: nat, after: nat, ttl: int, now: int) returns (steps: seq<Step>)
    requires spec.BucketSpec? && UnusableSpec(spec).None? && c.epochs <= epochs
    requires var alone := Acquire(c.(epochs := epochs), spec.cost, spec.cfg, spec.mark, ttl, now);
      alone.1.Acquired? && alone.0.epochs <= after
    ensures Takes(c, steps, Acquire(c.(epochs := epochs), spec.cost, spec.cfg, spec.mark, ttl, now).0.(epochs := after),
      spec.cost, spec.cfg, now)
  {
    var claim := AcquireStep(spec.cost, spec.cfg, spec.mark, ttl, now);
    var alone := Apply(c.(epochs := epochs), claim);
    ClaimAmongMints(c, epochs - c.epochs, claim, after - alone.epochs);
    steps := Mints(epochs - c.epochs, now) + [claim] + Mints(after - alone.epochs, now);
  }

  lemma RefusedView(c: Cell, cfg: Config, after: nat, ttl: int, now: int) returns (steps: seq<Step>)
    requires cfg.Usable() && c.epochs <= after
    ensures Takes(c, steps, c.Write(c.Reading(cfg, now), BucketTtl(ttl, cfg), now).(epochs := after), 0.0, cfg, now)
  {
    var claim := AcquireStep(cfg.maxTokens + cfg.maxTokens, cfg, None, ttl, now);
    DeclinedClaim(c, cfg, ttl, now);
    assert c.(epochs := c.epochs + 0) == c;
    ClaimAmongMints(c, 0, claim, after - c.epochs);
    steps := Mints(0, now) + [claim] + Mints(after - c.epochs, now);
  }

  /** A claim's decision does not depend on the epochs handed out. */
  lemma DecisionEpochFree(c: Cell, epochs: nat, cost: real, cfg: Config, mark: Option<ClaimMark>, ttl: int,
        other: int, now: int)
    ensures Acquire(c.(epochs := epochs), cost, cfg, mark, ttl, now).1.Acquired? <==> Acquire(c, cost, cfg, mark, other, now).1.Acquired?
  {
  }

  lemma TakesOfNamed(s: Store, specs: seq<Spec>, t: Store, spec: Spec, acquired: bool, ttl: int,
        at: int) returns (steps: seq<Step>)
    requires spec.BucketSpec? && UnusableSpec(spec).None? && s.epochs <= t.epochs
    requires BucketLeft(s, t, spec, acquired, ttl, at) && (acquired ==> AdmitsAlone(s, spec, at))
    ensures Takes(s.CellOf(spec.key), steps, t.CellOf(spec.key), if acquired then spec.cost else 0.0, spec.cfg, at)
  {
    var c := s.CellOf(spec.key);
    if acquired {
      var epochs: nat :| ClaimedAfter(s, t, spec, epochs, ttl, at);
      DecisionEpochFree(c, epochs, spec.cost, spec.cfg, spec.mark, ttl, DAY_SECONDS, at);
      steps := SpentView(c, spec, epochs, t.epochs, ttl, at);
    } else {
      steps := RefusedView(c, spec.cfg, t.epochs, ttl, at);
    }
  }

  /** A bucket's own claims, with the cost that a list charges it, are its view of the list. */
  lemma TakesIsView(s: Store, specs: seq<Spec>, ttl: int, at: int, i: nat, steps: seq<Step>)
    requires Distinct(specs) && i < |specs| && specs[i].BucketSpec?
    requires var (t, result) := AcquireMultiLimit(s, specs, ttl, at);
      Takes(s.CellOf(specs[i].key), steps, t.CellOf(specs[i].key), if result.AllAcquired? then specs[i].cost else 0.0, specs[i].cfg, at)
    ensures Views(s, ClaimAll(specs, ttl, at), specs[i].key, steps)
  {
    var step, key := ClaimAll(specs, ttl, at), specs[i].key;
    CostOf(specs, i, key);
    assert NamesBucket(specs, key);
    forall cfg, maxDebt | ChargesBy(step, key, cfg, maxDebt) || OnlyClaimsFrom(step, key, cfg)
      ensures specs[i].cfg == cfg
    {
    }
  }

  lemma ViewOfNamed(s: Store, specs: seq<Spec>, ttl: int, at: int, i: nat) returns (steps: seq<Step>)
    requires Distinct(specs) && Usable(specs) && i < |specs| && specs[i].BucketSpec?
    ensures Views(s, ClaimAll(specs, ttl, at), specs[i].key, steps)
  {
    var (t, result) := AcquireMultiLimit(s, specs, ttl, at);
    AcquiresAllOrNone(s, specs, ttl, at);
    steps := TakesOfNamed(s, specs, t, specs[i], result.AllAcquired?, ttl, at);
    TakesIsView(s, specs, ttl, at, i, steps);
  }

  lemma ViewOfRelease(s: Store, specs: seq<Spec>, at: int, key: string) returns (steps: seq<Step>)
    requires Distinct(specs)
    ensures Views(s, ReleaseAll(specs, at), key, steps)
  {
    var u := ReleaseMultiLimit(s, specs, at);
    ReleasesEach(s, specs, at);
    steps := [];
    if NamesBucket(specs, key) {
      var i :| 0 <= i < |specs| && specs[i].BucketSpec? && specs[i].key == key;
      assert Released(s, u, specs[i], at);
      if u.CellOf(key) != s.CellOf(key) {
        steps := [CreditStep(specs[i].cost, specs[i].cfg.maxTokens, at)];
        assert steps[1..] == [];
      }
    }
  }

  /** Every step of the store is, to each bucket, a stretch of that bucket's own run. */
  lemma ViewOf(s: Store, step: StoreStep, key: string) returns (steps: seq<Step>)
    requires Regular(step)
    ensures Views(s, step, key, steps)
  {
    match step
    case BucketOp(k, st) =>
      if k == key {
        steps := [st];
        assert steps[1..] == [];
      } else {
        EpochsGrow(s.CellOf(k), st);
        steps := ViewElsewhere(s, step, key);
      }
    case LedgerOp(_, _) => steps := ViewElsewhere(s, step, key);
    case FreezeOp(_, _) => steps := ViewElsewhere(s, step, key);
    case ClaimAll(specs, ttl, at) =>
      if NamesBucket(specs, key) {
        var i :| 0 <= i < |specs| && specs[i].BucketSpec? && specs[i].key == key;
        steps := ViewOfNamed(s, specs, ttl, at, i);
      } else {
        AcquiresAllOrNone(s, specs, ttl, at);
        CostOf(specs, 0, key);
        steps := ViewElsewhere(s, step, key);
      }
    case ReleaseAll(specs, at) => steps := ViewOfRelease(s, specs, at, key);
  }

  ghost predicate InTime(steps: seq<StoreStep>, first: int, last: int) {
    && (forall i :: 0 <= i < |steps| ==> Regular(steps[i]) && first <= steps[i].Now() <= last)
    && forall i, j :: 0 <= i < j < |steps| ==> steps[i].Now() <= steps[j].Now()
  }

  ghost predicate AllChargeBy(steps: seq<StoreStep>, key: string, cfg: Config, maxDebt: real) {
    forall i :: 0 <= i < |steps| ==> ChargesBy(steps[i], key, cfg, maxDebt)
  }

  ghost predicate AllOnlyClaimFrom(steps: seq<StoreStep>, key: string, cfg: Config) {
    forall i :: 0 <= i < |steps| ==> OnlyClaimsFrom(steps[i], key, cfg)
  }

  /** `view` is what a run of the store is to the bucket under `key`. */
  ghost predicate RunViewed(s: Store, steps: seq<StoreStep>, key: string, cfg: Config, maxDebt: real, first: int,
      last: int, view: seq<Step>) {
    && RunSteps(s.CellOf(key), view) == RunStore(s, steps).CellOf(key)
    && Admitted(s.CellOf(key), view) == StoreAdmitted(s, steps, key)
    && Charged(s.CellOf(key), view) == StoreCharged(s, steps, key)
    && Expiries(s.CellOf(key), view) <= StoreExpiries(s, steps, key)
    && (AllChargeBy(steps, key, cfg, maxDebt) ==> Chronological(view, cfg, maxDebt, first, last))
    && (AllOnlyClaimFrom(steps, key, cfg) ==> AllOnlyClaim(view, cfg))
  }

  /** So every run of the store is, to each bucket, a run of its own. */
  lemma {:induction false} RunViews(s: Store, steps: seq<StoreStep>, key: string, cfg: Config, maxDebt: real, first: int, last: int)
      returns (view: seq<Step>)
    requires InTime(steps, first, last)
    ensures RunViewed(s, steps, key, cfg, maxDebt, first, last, view)
    decreases |steps|
  {
    view := [];
    if steps != [] {
      var rest := steps[1..];
      assert forall i :: 0 <= i < |rest| ==> rest[i] == steps[i + 1];
      var head := ViewOf(s, steps[0], key);
      var tail := RunViews(ApplyStore(s, steps[0]), rest, key, cfg, maxDebt, steps[0].Now(), last);
      view := head + tail;
      RunsJoin(s.CellOf(key), head, tail);
      assert AllChargeBy(steps, key, cfg, maxDebt) ==> ChargesBy(steps[0], key, cfg, maxDebt) && AllChargeBy(rest, key, cfg, maxDebt);
      assert AllOnlyClaimFrom(steps, key, cfg) ==> OnlyClaimsFrom(steps[0], key, cfg) && AllOnlyClaimFrom(rest, key, cfg);
    }
  }

  /** A window of a store's run and all that came before it, as the bucket under `key` sees them. */
  lemma WindowViews(before: seq<StoreStep>, window: seq<StoreStep>, key: string, cfg: Config, maxDebt: real,
      origin: int, start: int, end: int) returns (past: seq<Step>, present: seq<Step>)
    requires InTime(before, origin, start) && InTime(window, start, end)
    requires AllChargeBy(before, key, cfg, maxDebt) && AllChargeBy(window, key, cfg, maxDebt)
    ensures Chronological(past, cfg, maxDebt, origin, start) && Chronological(present, cfg, maxDebt, start, end)
    ensures var s, c := RunStore(EMPTY_STORE, before), RunSteps(EMPTY_CELL, past);
      && Charged(c, present) == StoreCharged(s, window, key)
      && Admitted(c, present) == StoreAdmitted(s, window, key)
      && Expiries(c, present) <= StoreExpiries(s, window, key)
    ensures AllOnlyClaimFrom(before, key, cfg) ==> AllOnlyClaim(past, cfg)
    ensures AllOnlyClaimFrom(window, key, cfg) ==> AllOnlyClaim(present, cfg)
  {
    past := RunViews(EMPTY_STORE, before, key, cfg, maxDebt, origin, start);
    present := RunViews(RunStore(EMPTY_STORE, before), window, key, cfg, maxDebt, start, end);
    ViewsBeginEmpty(key);
  }

  /**
   * What one bucket of the whole store can be charged. Whatever else is claimed or handed
   * back, by itself or together with it, what was taken from it between `start` and `end`,
   * less what was given back, is at most one full bucket and one refill for every interval
   * the window touches, with one slip for the window and one for each time it was written
   * expired.
   */
  lemma NetChargeIsBoundedInStore(before: seq<StoreStep>, window: seq<StoreStep>, key: string, cfg: Config, maxDebt: real,
      origin: int, start: int, end: int)
    requires Metered(cfg) && origin <= start <= end
    requires InTime(before, origin, start) && InTime(window, start, end)
    requires AllChargeBy(before, key, cfg, maxDebt) && AllChargeBy(window, key, cfg, maxDebt)
    ensures var s := RunStore(EMPTY_STORE, before);
      StoreCharged(s, window, key) <= WindowBound(cfg, Slip(cfg, maxDebt), end - start, StoreExpiries(s, window, key) + 1)
  {
    var s := RunStore(EMPTY_STORE, before);
    var past, present := WindowViews(before, window, key, cfg, maxDebt, origin, start, end);
    ChargedWithin(past, present, cfg, maxDebt, origin, start, end, StoreExpiries(s, window, key));
  }

  lemma ViewsBeginEmpty(key: string)
    ensures EMPTY_STORE.CellOf(key) == EMPTY_CELL
  {
  }

  /** A bound with one slip for each expiry of a view holds with one for each of the store's. */
  lemma BoundLoosens(cfg: Config, slip: real, span: int, charged: real, m: nat, n: nat)
    requires Metered(cfg) && span >= 0 && slip > 0.0 && m <= n && charged <= WindowBound(cfg, slip, span, m + 1)
    ensures charged <= WindowBound(cfg, slip, span, n + 1)
  {
    WindowBoundGrows(cfg, slip, span, m + 1, n + 1);
  }

  lemma ChargedWithin(past: seq<Step>, present: seq<Step>, cfg: Config, maxDebt: real, origin: int, start: int, end: int, n: nat)
    requires Metered(cfg) && origin <= start <= end
    requires Chronological(past, cfg, maxDebt, origin, start) && Chronological(present, cfg, maxDebt, start, end)
    requires Expiries(RunSteps(EMPTY_CELL, past), present) <= n
    ensures Charged(RunSteps(EMPTY_CELL, past), present) <= WindowBound(cfg, Slip(cfg, maxDebt), end - start, n + 1)
  {
    var c := RunSteps(EMPTY_CELL, past);
    NetChargeIsBounded(past, present, cfg, maxDebt, origin, start, end);
    SlipIsPositive(cfg, maxDebt);
    BoundLoosens(cfg, Slip(cfg, maxDebt), end - start, Charged(c, present), Expiries(c, present), n);
  }

  /**
   * The rate limit of one bucket in the whole store: while it is only claimed from and
   * emptied, by itself or together with others, the cost it admits stays within that
   * bound, and a slip is the claim tolerance.
   */
  lemma RateLimitHoldsInStore(before: seq<StoreStep>, window: seq<StoreStep>, key: string, cfg: Config, origin: int, start: int, end: int)
    requires Metered(cfg) && origin <= start <= end
    requires InTime(before, origin, start) && InTime(window, start, end)
    requires AllOnlyClaimFrom(before, key, cfg) && AllOnlyClaimFrom(window, key, cfg)
    ensures var s := RunStore(EMPTY_STORE, before);
      StoreAdmitted(s, window, key)
        <= WindowBound(cfg, BALANCE_TOLERANCE * cfg.maxTokens, end - start, StoreExpiries(s, window, key) + 1)
  {
    var s := RunStore(EMPTY_STORE, before);
    ClaimsCharge(before, key, cfg);
    ClaimsCharge(window, key, cfg);
    var past, present := WindowViews(before, window, key, cfg, 0.0, origin, start, end);
    RateLimitHolds(past, present, cfg, 0.0, origin, start, end);
    BoundLoosens(cfg, BALANCE_TOLERANCE * cfg.maxTokens, end - start, StoreAdmitted(s, window, key),
      Expiries(RunSteps(EMPTY_CELL, past), present), StoreExpiries(s, window, key));
  }

  lemma ClaimsCharge(steps: seq<StoreStep>, key: string, cfg: Config)
    requires AllOnlyClaimFrom(steps, key, cfg)
    ensures AllChargeBy(steps, key, cfg, 0.0)
  {
    forall i | 0 <= i < |steps| ensures ChargesBy(steps[i], key, cfg, 0.0) {
      assert OnlyClaimsFrom(steps[i], key, cfg);
    }
  }

  /** No bucket of any reachable store has forgiven more than it has discarded. */
  lemma ForgivenWithinOverflowInStore(steps: seq<StoreStep>, key: string, first: int, last: int)
    requires InTime(steps, first, last)
    ensures ForgivenWithinOverflow(RunStore(EMPTY_STORE, steps).CellOf(key))
  {
    var view := RunViews(EMPTY_STORE, steps, key, Config(1.0, 1.0, 1), 0.0, first, last);
    ViewsBeginEmpty(key);
    RunForgivenWithinOverflow(EMPTY_CELL, view);
  }

  // ------------------------------------------------------ one ledger's view of a run

  /** `st` is what the store's step is to the ledger under `key`. */
  ghost predicate ViewsLedger(step: StoreStep, key: string, st: SlotStep) {
    match step
    case LedgerOp(k, x) => k == key && st == x
    case ClaimAll(specs, ttl, at) =>
      exists i :: 0 <= i < |specs| && specs[i].SlotSpec? && specs[i].key == key
        && (st == SlotStepOf(specs[i], true, ttl, at) || st == SlotStepOf(specs[i], false, ttl, at))
    case ReleaseAll(specs, at) =>
      exists i :: 0 <= i < |specs| && specs[i].SlotSpec? && specs[i].key == key && st == ReleaseStep(specs[i].slotId, at)
    case _ => false
  }

  function SlotStepOf(spec: Spec, acquired: bool, ttl: int, at: int): SlotStep
    requires spec.SlotSpec?
  {
    if acquired then ClaimStep(spec.cost, spec.slotId, spec.slotCfg, ttl, at) else ReapStep(spec.slotCfg.requestTtl, at)
  }

  lemma ClaimViewed(specs: seq<Spec>, i: nat, acquired: bool, ttl: int, at: int)
    requires i < |specs| && specs[i].SlotSpec?
    ensures ViewsLedger(ClaimAll(specs, ttl, at), specs[i].key, SlotStepOf(specs[i], acquired, ttl, at))
  {
  }

  lemma OneSlotStep(before: Ledger, after: Ledger, spec: Spec, acquired: bool, ttl: int, at: int)
    requires spec.SlotSpec?
    requires after == if acquired then AcquireSlot(before, spec.cost, spec.slotId, spec.slotCfg, ttl, at).0
      else Reap(before, at - spec.slotCfg.requestTtl, at)
    ensures after == ApplySlot(before, SlotStepOf(spec, acquired, ttl, at))
  {
  }

  lemma LedgerViewOfClaim(s: Store, specs: seq<Spec>, t: Store, acquired: bool, ttl: int, at: int, key: string)
      returns (steps: seq<SlotStep>)
    requires LedgersLeft(s, specs, t, acquired, ttl, at)
    ensures |steps| <= 1
    ensures t.LedgerOf(key) == if steps == [] then s.LedgerOf(key) else ApplySlot(s.LedgerOf(key), steps[0])
    ensures steps != [] ==> ViewsLedger(ClaimAll(specs, ttl, at), key, steps[0])
  {
    steps := [];
    if NamesLedger(specs, key) {
      var i :| 0 <= i < |specs| && specs[i].SlotSpec? && specs[i].key == key;
      assert LedgerLeft(s, t, specs[i], acquired, ttl, at);
      OneSlotStep(s.LedgerOf(key), t.LedgerOf(key), specs[i], acquired, ttl, at);
      ClaimViewed(specs, i, acquired, ttl, at);
      steps := [SlotStepOf(specs[i], acquired, ttl, at)];
    }
  }

  /** Every step of the store is, to each ledger, at most one step of that ledger's own. */
  lemma LedgerViewOf(s: Store, step: StoreStep, key: string) returns (steps: seq<SlotStep>)
    requires Regular(step)
    ensures |steps| <= 1
    ensures ApplyStore(s, step).LedgerOf(key) == if steps == [] then s.LedgerOf(key) else ApplySlot(s.LedgerOf(key), steps[0])
    ensures steps != [] ==> ViewsLedger(step, key, steps[0])
  {
    steps := [];
    match step
    case LedgerOp(k, st) =>
      if k == key { steps := [st]; }
    case ClaimAll(specs, ttl, at) =>
      AcquiresAllOrNone(s, specs, ttl, at);
      var (t, result) := AcquireMultiLimit(s, specs, ttl, at);
      steps := LedgerViewOfClaim(s, specs, t, result.AllAcquired?, ttl, at, key);
    case ReleaseAll(specs, at) =>
      ReleasesEach(s, specs, at);
      if NamesLedger(specs, key) {
        var i :| 0 <= i < |specs| && specs[i].SlotSpec? && specs[i].key == key;
        assert Released(s, ReleaseMultiLimit(s, specs, at), specs[i], at);
        steps := [ReleaseStep(specs[i].slotId, at)];
      }
    case _ =>
  }

  /** Whatever the step claims from the ledger under `key`, it claims under this ceiling. */
  ghost predicate CapsAt(step: StoreStep, key: string, maxConcurrency: real) {
    forall st :: ViewsLedger(step, key, st) && st.ClaimStep? ==> st.cfg.maxConcurrency == maxConcurrency
  }

  lemma {:induction false} StoreKeepsCap(s: Store, steps: seq<StoreStep>, key: string, maxConcurrency: real)
    requires forall i :: 0 <= i < |steps| ==> Regular(steps[i]) && CapsAt(steps[i], key, maxConcurrency)
    requires Capped(s.LedgerOf(key), maxConcurrency)
    ensures Capped(RunStore(s, steps).LedgerOf(key), maxConcurrency)
    decreases |steps|
  {
    if steps != [] {
      var view := LedgerViewOf(s, steps[0], key);
      if view != [] {
        assert CapsAt(steps[0], key, maxConcurrency);
        ApplyCapped(s.LedgerOf(key), view[0], maxConcurrency);
      }
      assert forall i :: 0 <= i < |steps[1..]| ==> steps[1..][i] == steps[i + 1];
      StoreKeepsCap(ApplyStore(s, steps[0]), steps[1..], key, maxConcurrency);
    }
  }

  /**
   * The ceiling of one ledger in the whole store: claimed alone or with other budgets,
   * refused, released, touched, reaped or expired, it never holds more than its ceiling.
   */
  lemma ConcurrencyIsCappedInStore(steps: seq<StoreStep>, key: string, maxConcurrency: real, now: int, id: string)
    requires maxConcurrency >= 0.0
    requires forall i :: 0 <= i < |steps| ==> Regular(steps[i]) && CapsAt(steps[i], key, maxConcurrency)
    ensures var l := RunStore(EMPTY_STORE, steps).LedgerOf(key);
      Total(l.Costs(now)) <= maxConcurrency && l.Members(now).Keys == l.Costs(now).Keys && l.Occupancy(id, now) <= maxConcurrency
  {
    StoreKeepsCap(EMPTY_STORE, steps, key, maxConcurrency);
    CappedReads(RunStore(EMPTY_STORE, steps).LedgerOf(key), maxConcurrency, now, id);
  }

  /** Whatever the step does to the ledger under `key`, it does under one lease and the default lifetime. */
  ghost predicate LeasesBy(step: StoreStep, key: string, requestTtl: int) {
    forall st :: ViewsLedger(step, key, st) ==> st.now == step.Now() && Timely([st], requestTtl, st.now, st.now)
  }

  /** The step hands back the slot `id` of the ledger under `key`. */
  ghost predicate Frees(step: StoreStep, key: string, id: string) {
    exists st :: ViewsLedger(step, key, st) && st.ReleaseStep? && st.id == id
  }

  ghost predicate Leased(steps: seq<StoreStep>, key: string, requestTtl: int, first: int, last: int) {
    && InTime(steps, first, last)
    && forall i :: 0 <= i < |steps| ==> LeasesBy(steps[i], key, requestTtl)
  }

  lemma {:induction false} StoreStamps(s: Store, steps: seq<StoreStep>, key: string, requestTtl: int, first: int, last: int)
    requires Leased(steps, key, requestTtl, first, last) && first <= last && Stamped(s.LedgerOf(key), first)
    ensures Stamped(RunStore(s, steps).LedgerOf(key), last)
    decreases |steps|
  {
    if steps != [] {
      var view := LedgerViewOf(s, steps[0], key);
      if view != [] {
        assert LeasesBy(steps[0], key, requestTtl);
        TimelySince(view[0], requestTtl, first);
        ApplyStamped(s.LedgerOf(key), view[0], requestTtl, first);
      }
      assert forall i :: 0 <= i < |steps[1..]| ==> steps[1..][i] == steps[i + 1];
      StoreStamps(ApplyStore(s, steps[0]), steps[1..], key, requestTtl, steps[0].Now(), last);
    }
  }

  lemma TimelySince(st: SlotStep, requestTtl: int, first: int)
    requires Timely([st], requestTtl, st.now, st.now) && first <= st.now
    ensures Timely([st], requestTtl, first, st.now)
  {
    assert [st][0] == st;
  }

  lemma {:induction false} StoreKeepsYoung(s: Store, steps: seq<StoreStep>, key: string, requestTtl: int, first: int,
      last: int, id: string, stamp: int)
    requires Leased(steps, key, requestTtl, first, last) && requestTtl <= DAY_SECONDS * 1000
    requires Stamped(s.LedgerOf(key), first) && Holds(s.LedgerOf(key), id, stamp) && first <= last < stamp + requestTtl
    requires forall i :: 0 <= i < |steps| ==> !Frees(steps[i], key, id)
    ensures id in RunStore(s, steps).LedgerOf(key).Members(last)
    decreases |steps|
  {
    if steps != [] {
      var step := steps[0];
      var view := LedgerViewOf(s, step, key);
      if view != [] {
        assert LeasesBy(step, key, requestTtl) && !Frees(step, key, id);
        TimelySince(view[0], requestTtl, first);
        ApplyKeepsYoung(s.LedgerOf(key), view[0], requestTtl, first, id, stamp);
      }
      assert forall i :: 0 <= i < |steps[1..]| ==> steps[1..][i] == steps[i + 1];
      StoreKeepsYoung(ApplyStore(s, step), steps[1..], key, requestTtl, step.Now(), last, id, stamp);
    }
  }

  /** The step leaves the slot `id` of the ledger under `key` held. */
  ghost predicate SecuresSlot(s: Store, step: StoreStep, key: string, id: string) {
    match step
    case LedgerOp(k, st) => k == key && (st.ClaimStep? || st.TouchStep?) && st.id == id && Secures(s.LedgerOf(key), st)
    case ClaimAll(specs, ttl, at) =>
      && AcquireMultiLimit(s, specs, ttl, at).1.AllAcquired?
      && exists i :: 0 <= i < |specs| && specs[i].SlotSpec? && specs[i].key == key && specs[i].slotId == id
    case _ => false
  }

  lemma TakenIsHeld(s: Store, step: StoreStep, key: string, id: string)
    requires Regular(step) && SecuresSlot(s, step, key, id)
    ensures Holds(ApplyStore(s, step).LedgerOf(key), id, step.Now())
  {
    match step
    case LedgerOp(_, st) => SecuresHold(s.LedgerOf(key), st);
    case ClaimAll(specs, ttl, at) =>
      var i :| 0 <= i < |specs| && specs[i].SlotSpec? && specs[i].key == key && specs[i].slotId == id;
      AcquiresAllOrNone(s, specs, ttl, at);
      assert LedgerLeft(s, AcquireMultiLimit(s, specs, ttl, at).0, specs[i], true, ttl, at);
      ClaimHolds(s, specs[i], ttl, at);
  }

  lemma ClaimHolds(s: Store, spec: Spec, ttl: int, at: int)
    requires spec.SlotSpec? && AdmitsAlone(s, spec, at)
    ensures Holds(AcquireSlot(s.LedgerOf(spec.key), spec.cost, spec.slotId, spec.slotCfg, ttl, at).0, spec.slotId, at)
  {
  }

  /**
   * A slot of any ledger of the store, claimed or touched, alone or with other budgets, is
   * still held at any later time inside the lease counted from then, unless it was handed
   * back.
   */
  lemma YoungSlotLeavesOnlyByReleaseInStore(before: seq<StoreStep>, taking: StoreStep, after: seq<StoreStep>, key: string,
      requestTtl: int, origin: int, last: int, id: string)
    requires requestTtl <= DAY_SECONDS * 1000 && origin <= taking.Now() <= last < taking.Now() + requestTtl
    requires Leased(before, key, requestTtl, origin, taking.Now()) && Leased([taking], key, requestTtl, taking.Now(), taking.Now())
    requires Leased(after, key, requestTtl, taking.Now(), last)
    requires SecuresSlot(RunStore(EMPTY_STORE, before), taking, key, id)
    requires forall i :: 0 <= i < |after| ==> !Frees(after[i], key, id)
    ensures id in RunStore(ApplyStore(RunStore(EMPTY_STORE, before), taking), after).LedgerOf(key).Members(last)
  {
    var s := RunStore(EMPTY_STORE, before);
    var t := ApplyStore(s, taking);
    StoreStamps(EMPTY_STORE, before, key, requestTtl, origin, taking.Now());
    OneStoreStep(s, taking);
    StoreStamps(s, [taking], key, requestTtl, taking.Now(), taking.Now());
    assert [taking][0] == taking;
    TakenIsHeld(s, taking, key, id);
    StoreKeepsYoung(t, after, key, requestTtl, taking.Now(), last, id, taking.Now());
  }

  lemma OneStoreStep(s: Store, step: StoreStep)
    ensures RunStore(s, [step]) == ApplyStore(s, step)
  {
    assert [step][1..] == [];
  }
}
