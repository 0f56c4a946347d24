/**
 * Safety of settlement over whole runs: claims, declines, settlements, refunds,
 * emptyings and resets of one bucket in any order, with any number of claims
 * outstanding, keys expiring and the configuration changing under them.
 */
module BucketRuns {
  import opened Numbers
  import opened TokenBucket
  import opened Settlement
  import opened Buckets

  /**
   * A run watched from some instant on.
   *
   * `discarded` is the refill the bucket has thrown away since, `granted` what
   * settlements have since let the claims made since keep unpaid, and `recent` their mark
   * ids.
   * `births` counts the incarnations of the bucket, `eras` its emptyings and resets,
   * `bornInEra` the era the standing incarnation began in, and `origin` where each
   * mark was written.
   */
  datatype Watch = Watch(
    cell: Cell,
    discarded: real,
    granted: real,
    recent: set<string>,
    births: nat,
    eras: nat,
    bornInEra: nat,
    origin: map<string, (nat, nat)>)

  function Begin(c: Cell): Watch {
    Watch(c, 0.0, 0.0, {}, 0, 0, 0, map[])
  }

  function OverflowOf(b: Option<Bucket>): real {
    if b.Some? then b.value.bal.overflow else 0.0
  }

  /** The mark a step leaves behind, if it is a claim that was admitted with one. */
  function MarkedBy(c: Cell, step: Step): Option<string> {
    if step.AcquireStep? && step.mark.Some?
      && Acquire(c, step.cost, step.cfg, step.mark, step.ttl, step.now).1.Acquired?
    then Some(step.mark.value.id) else None
  }

  /** The mark was written since the watch began, under the standing incarnation and era of the bucket. */
  predicate MarkedHere(w: Watch, id: string) {
    id in w.recent && id in w.origin && w.origin[id] == (w.births, w.eras)
  }

  /**
   * What a settlement lets a claim keep unpaid, by its answer alone: how far the actual
   * cost exceeds the one claimed, less what is taken now and what is reported as not taken.
   */
  function Forgave(w: Watch, step: Step): real {
    if !step.SettleStep? || !MarkedHere(w, step.markId) || w.cell.Stored(step.now).None? then 0.0
    else
      var mark := Live(w.cell.marks, step.markId, step.now);
      var result := Settle(w.cell, step.markId, step.actual, step.cfg, step.maxDebt, step.now).1;
      if mark.None? || !result.settled || step.actual < mark.value.claimed then 0.0
      else step.actual - mark.value.claimed - result.applied - result.unapplied
  }

  function Observe(w: Watch, step: Step): Watch {
    var next := Apply(w.cell, step);
    var touched := next.bucket.Some? && next.bucket != w.cell.bucket;
    var before := w.cell.Stored(step.now);
    var born := touched && before.None?;
    var eras := if step.EmptyStep? || step.ResetStep? then w.eras + 1 else w.eras;
    var births := if born then w.births + 1 else w.births;
    var marked := MarkedBy(w.cell, step);
    Watch(
      next,
      w.discarded + (if touched then next.bucket.value.value.bal.overflow - OverflowOf(before) else 0.0),
      w.granted + Forgave(w, step),
      if marked.Some? then w.recent + {marked.value} else w.recent,
      births,
      eras,
      if born then w.eras else w.bornInEra,
      if marked.Some? then w.origin[marked.value := (births, eras)] else w.origin)
  }

  function ObserveAll(w: Watch, steps: seq<Step>): Watch
    decreases |steps|
  {
    if steps == [] then w else ObserveAll(Observe(w, steps[0]), steps[1..])
  }

  /** Every recorded epoch has been handed out, and every mark carries one. */
  ghost predicate EpochsIssued(c: Cell) {
    && (c.bucket.Some? && c.bucket.value.value.epoch.Some? ==> c.bucket.value.value.epoch.value <= c.epochs)
    && forall id :: id in c.marks ==> c.marks[id].value.epoch.Some? && c.marks[id].value.epoch.value <= c.epochs
  }

  /** The mark belongs to the incarnation of the bucket that is stored. */
  ghost predicate Current(c: Cell, id: string) {
    c.bucket.Some? && id in c.marks && c.marks[id].value.epoch == c.bucket.value.value.epoch
  }

  // ------------------------------------------- each discarded token forgives once

  /** A mark written here is a mark of the stored bucket, whose counters have only grown since. */
  ghost predicate FollowsMark(w: Watch, id: string) {
    && (id in w.origin ==> w.origin[id].0 <= w.births && w.origin[id].1 <= w.eras)
    && (MarkedHere(w, id) && id in w.cell.marks ==>
          && Current(w.cell, id)
          && var m, b := w.cell.marks[id].value, w.cell.bucket.value.value;
          m.generation == b.generation && m.overflow <= b.bal.overflow && m.fills <= b.bal.fills)
  }

  lemma ClaimFollows(w: Watch, step: Step, id: string)
    requires EpochsIssued(w.cell) && FollowsMark(w, id) && step.AcquireStep?
    ensures FollowsMark(Observe(w, step), id)
  {
    if UnusableBudget(step.cost, step.cfg).None? && w.cell.Stored(step.now).Some? {
      RefillGrows(w.cell.Stored(step.now).value.bal, step.cfg, step.now);
    }
  }

  lemma SettlementFollows(w: Watch, step: Step, id: string)
    requires EpochsIssued(w.cell) && FollowsMark(w, id) && step.SettleStep?
    ensures FollowsMark(Observe(w, step), id)
  {
    if UnusableBudget(0.0, step.cfg).None? && w.cell.Stored(step.now).Some? {
      RefillGrows(w.cell.Stored(step.now).value.bal, step.cfg, step.now);
    }
  }

  lemma ObserveFollows(w: Watch, step: Step, id: string)
    requires EpochsIssued(w.cell) && FollowsMark(w, id)
    ensures FollowsMark(Observe(w, step), id)
  {
    if step.AcquireStep? {
      ClaimFollows(w, step, id);
    } else if step.SettleStep? {
      SettlementFollows(w, step, id);
    }
  }

  /** What a settlement lets a claim keep unpaid is what the bucket's `forgiven` rises by. */
  lemma ForgivenRises(w: Watch, step: Step)
    requires EpochsIssued(w.cell) && step.SettleStep? && MarkedHere(w, step.markId) && FollowsMark(w, step.markId)
    requires w.cell.Stored(step.now).Some?
    ensures var next := Apply(w.cell, step);
      && next.bucket.Some? && Forgave(w, step) >= 0.0
      && next.bucket.value.value.forgiven == w.cell.Stored(step.now).value.forgiven + Forgave(w, step)
  {
    if UnusableBudget(0.0, step.cfg).None? {
      RefillGrows(w.cell.Stored(step.now).value.bal, step.cfg, step.now);
    }
  }

  ghost predicate ForgivesOnce(w: Watch) {
    && EpochsIssued(w.cell)
    && (forall id :: FollowsMark(w, id))
    && GrantsCovered(w)
  }

  ghost predicate ForgivenWithinOverflow(c: Cell) {
    && (c.bucket.Some? ==> c.bucket.value.value.forgiven <= c.bucket.value.value.bal.overflow)
    && forall id :: Current(c, id) ==> c.marks[id].value.forgiven <= c.marks[id].value.overflow
  }

  /** The account of what has been granted, apart from the marks' own counters. */
  ghost predicate GrantsCovered(w: Watch) {
    && w.granted <= w.discarded
    && forall id :: id in w.recent && Current(w.cell, id) ==>
      var m, b := w.cell.marks[id].value, w.cell.bucket.value.value;
      w.granted <= m.overflow + (w.discarded - b.bal.overflow) + (b.forgiven - m.forgiven)
  }

  lemma ClaimForgivesOnce(w: Watch, step: Step)
    requires ForgivesOnce(w) && step.AcquireStep?
    ensures GrantsCovered(Observe(w, step))
  {
  }

  lemma SettlementForgivesOnce(w: Watch, step: Step)
    requires ForgivesOnce(w) && step.SettleStep?
    ensures GrantsCovered(Observe(w, step))
  {
    if MarkedHere(w, step.markId) && w.cell.Stored(step.now).Some? {
      ForgivenRises(w, step);
    }
  }

  lemma ObserveForgivesOnce(w: Watch, step: Step)
    requires ForgivesOnce(w)
    ensures ForgivesOnce(Observe(w, step))
  {
    forall id ensures FollowsMark(Observe(w, step), id) {
      ObserveFollows(w, step, id);
    }
    if step.AcquireStep? {
      ClaimForgivesOnce(w, step);
    } else if step.SettleStep? {
      SettlementForgivesOnce(w, step);
    }
  }

  lemma {:induction false} RunForgivesOnce(w: Watch, steps: seq<Step>)
    requires ForgivesOnce(w)
    ensures ForgivesOnce(ObserveAll(w, steps))
    decreases |steps|
  {
    if steps != [] {
      ObserveForgivesOnce(w, steps[0]);
      RunForgivesOnce(Observe(w, steps[0]), steps[1..]);
    }
  }

  lemma ClaimKeepsForgiven(c: Cell, step: Step)
    requires EpochsIssued(c) && ForgivenWithinOverflow(c) && step.AcquireStep?
    ensures EpochsIssued(Apply(c, step)) && ForgivenWithinOverflow(Apply(c, step))
  {
  }

  lemma SettlementKeepsForgiven(c: Cell, step: Step)
    requires EpochsIssued(c) && ForgivenWithinOverflow(c) && step.SettleStep?
    ensures EpochsIssued(Apply(c, step)) && ForgivenWithinOverflow(Apply(c, step))
  {
  }

  lemma ApplyForgivenWithinOverflow(c: Cell, step: Step)
    requires EpochsIssued(c) && ForgivenWithinOverflow(c)
    ensures EpochsIssued(Apply(c, step)) && ForgivenWithinOverflow(Apply(c, step))
  {
    if step.AcquireStep? {
      ClaimKeepsForgiven(c, step);
    } else if step.SettleStep? {
      SettlementKeepsForgiven(c, step);
    }
  }

  lemma {:induction false} RunForgivenWithinOverflow(c: Cell, steps: seq<Step>)
    requires EpochsIssued(c) && ForgivenWithinOverflow(c)
    ensures EpochsIssued(RunSteps(c, steps)) && ForgivenWithinOverflow(RunSteps(c, steps))
    decreases |steps|
  {
    if steps != [] {
      ApplyForgivenWithinOverflow(c, steps[0]);
      RunForgivenWithinOverflow(Apply(c, steps[0]), steps[1..]);
    }
  }

  /**
   * Every run, watched from any instant: the forgiveness granted since then to the
   * claims made since then never exceeds the refill discarded since then, and no
   * incarnation of the bucket ever forgives more than it has discarded.
   */
  lemma DiscardedTokensForgiveOnce(before: seq<Step>, after: seq<Step>)
    ensures
      var w := ObserveAll(Begin(RunSteps(EMPTY_CELL, before)), after);
      && w.cell == RunSteps(RunSteps(EMPTY_CELL, before), after)
      && w.granted <= w.discarded
      && ForgivenWithinOverflow(w.cell)
  {
    var c := RunSteps(EMPTY_CELL, before);
    RunForgivenWithinOverflow(EMPTY_CELL, before);
    RunForgivenWithinOverflow(c, after);
    RunForgivesOnce(Begin(c), after);
    ObserveRuns(Begin(c), after);
  }

  lemma {:induction false} ObserveRuns(w: Watch, steps: seq<Step>)
    ensures ObserveAll(w, steps).cell == RunSteps(w.cell, steps)
    decreases |steps|
  {
    if steps != [] {
      ObserveRuns(Observe(w, steps[0]), steps[1..]);
    }
  }

  // ---------------------------- a settlement acts only on the bucket it claimed from

  ghost predicate OriginsTracked(w: Watch) {
    && EpochsIssued(w.cell)
    && w.bornInEra <= w.eras
    && (w.cell.bucket.Some? ==> w.births > 0 && w.cell.bucket.value.value.generation == w.eras - w.bornInEra)
    && forall id :: Current(w.cell, id) ==>
      && id in w.origin
      && w.origin[id].0 == w.births
      && w.cell.marks[id].value.generation == w.origin[id].1 - w.bornInEra
  }

  lemma ClaimTracksOrigins(w: Watch, step: Step)
    requires OriginsTracked(w) && step.AcquireStep?
    ensures OriginsTracked(Observe(w, step))
  {
  }

  lemma SettlementTracksOrigins(w: Watch, step: Step)
    requires OriginsTracked(w) && step.SettleStep?
    ensures OriginsTracked(Observe(w, step))
  {
  }

  lemma ObserveTracksOrigins(w: Watch, step: Step)
    requires OriginsTracked(w)
    ensures OriginsTracked(Observe(w, step))
  {
    if step.AcquireStep? {
      ClaimTracksOrigins(w, step);
    } else if step.SettleStep? {
      SettlementTracksOrigins(w, step);
    }
  }

  lemma {:induction false} RunTracksOrigins(w: Watch, steps: seq<Step>)
    requires OriginsTracked(w)
    ensures OriginsTracked(ObserveAll(w, steps))
    decreases |steps|
  {
    if steps != [] {
      ObserveTracksOrigins(w, steps[0]);
      RunTracksOrigins(Observe(w, steps[0]), steps[1..]);
    }
  }

  /**
   * After any run, a settlement that corrects anything settles a mark written under
   * the standing incarnation of the bucket, with no emptying or reset in between.
   */
  lemma SettlesOnlyItsOwnBucket(steps: seq<Step>, markId: string, actual: real, cfg: Config, maxDebt: real, now: int)
    ensures
      var w := ObserveAll(Begin(EMPTY_CELL), steps);
      var (next, result) := Settle(w.cell, markId, actual, cfg, maxDebt, now);
      && (result.applied != 0.0 || result.unapplied != 0.0
          || (w.cell.Stored(now).Some? && next.bucket.Some? && next.bucket.value.value.forgiven != w.cell.Stored(now).value.forgiven)
          ==> markId in w.origin && w.origin[markId] == (w.births, w.eras))
  {
    RunTracksOrigins(Begin(EMPTY_CELL), steps);
    var w := ObserveAll(Begin(EMPTY_CELL), steps);
    var mark, b := Live(w.cell.marks, markId, now), w.cell.Stored(now);
    if mark.Some? && b.Some? && !(actual < 0.0) && UnusableBudget(0.0, cfg).None? {
      var input := SettleInputOf(b.value, Refill(b.value.bal, cfg, now), mark.value, actual, cfg, maxDebt);
      if !input.Stale() {
        assert Current(w.cell, markId);
      }
    }
  }

  ghost predicate NeverClaims(steps: seq<Step>, markId: string) {
    forall i :: 0 <= i < |steps| ==>
      !(steps[i].AcquireStep? && steps[i].mark.Some? && steps[i].mark.value.id == markId)
  }

  lemma {:induction false} GoneMarkStaysGone(c: Cell, steps: seq<Step>, markId: string)
    requires markId !in c.marks && NeverClaims(steps, markId)
    ensures markId !in RunSteps(c, steps).marks
    decreases |steps|
  {
    if steps != [] {
      var next := Apply(c, steps[0]);
      assert markId !in next.marks;
      assert forall i :: 0 <= i < |steps[1..]| ==> steps[1..][i] == steps[i + 1];
      GoneMarkStaysGone(next, steps[1..], markId);
    }
  }

  /** A settled mark is spent: until it is claimed again, settling it does nothing. */
  lemma SettlesOnce(c: Cell, markId: string, actual: real, cfg: Config, maxDebt: real, now: int,
      steps: seq<Step>, again: real, cfgAgain: Config, maxDebtAgain: real, later: int)
    requires Settle(c, markId, actual, cfg, maxDebt, now).1.settled && NeverClaims(steps, markId)
    ensures
      var c' := RunSteps(Settle(c, markId, actual, cfg, maxDebt, now).0, steps);
      Settle(c', markId, again, cfgAgain, maxDebtAgain, later) == (c', SettleResult(false, 0.0, 0.0))
  {
    GoneMarkStaysGone(Settle(c, markId, actual, cfg, maxDebt, now).0, steps, markId);
  }

  // ------------------------------------------------------------ the balance's bounds

  /** The steps of a run under one configuration and one debt limit. */
  predicate Under(step: Step, cfg: Config, maxDebt: real) {
    match step
    case AcquireStep(_, c, _, _, _) => c == cfg
    case SettleStep(_, _, c, d, _) => c == cfg && d == maxDebt
    case CreditStep(_, maxTokens, _) => maxTokens == cfg.maxTokens
    case EmptyStep(c, _) => c == cfg
    case ResetStep(maxTokens, _) => maxTokens == cfg.maxTokens
    case TouchMarkStep(_, _, _) => true
    case MintStep(_) => true
  }

  ghost predicate WithinBounds(c: Cell, cfg: Config, maxDebt: real) {
    c.bucket.Some? ==>
      -Max(maxDebt, BALANCE_TOLERANCE * cfg.maxTokens) <= c.bucket.value.value.bal.tokens <= cfg.maxTokens
  }

  lemma CoveredSpend(tokens: real, cost: real, maxTokens: real)
    requires CoversCost(tokens, cost, maxTokens) && cost >= 0.0 && maxTokens > 0.0
    ensures tokens - cost >= -(BALANCE_TOLERANCE * maxTokens)
  {
    assert Min(maxTokens, cost) * BALANCE_TOLERANCE <= maxTokens * BALANCE_TOLERANCE;
  }

  lemma ApplyWithinBounds(c: Cell, step: Step, cfg: Config, maxDebt: real)
    requires cfg.Usable() && Under(step, cfg, maxDebt) && WithinBounds(c, cfg, maxDebt)
    ensures WithinBounds(Apply(c, step), cfg, maxDebt)
  {
    var now := step.now;
    var b := c.Stored(now);
    RefillGrows(if b.Some? then b.value.bal else Fresh(cfg, now), cfg, now);
    if step.AcquireStep? && step.cost >= 0.0 {
      var bal := c.Reading(cfg, now);
      if CoversCost(bal.tokens, step.cost, cfg.maxTokens) {
        CoveredSpend(bal.tokens, step.cost, cfg.maxTokens);
      }
    }
  }

  /**
   * In every run under one usable configuration the balance stays between the larger
   * of the debt limit and the claim tolerance below zero, and the ceiling.
   */
  lemma {:induction false} BalanceStaysWithinBounds(c: Cell, steps: seq<Step>, cfg: Config, maxDebt: real)
    requires cfg.Usable() && WithinBounds(c, cfg, maxDebt)
    requires forall i :: 0 <= i < |steps| ==> Under(steps[i], cfg, maxDebt)
    ensures WithinBounds(RunSteps(c, steps), cfg, maxDebt)
    decreases |steps|
  {
    if steps != [] {
      ApplyWithinBounds(c, steps[0], cfg, maxDebt);
      BalanceStaysWithinBounds(Apply(c, steps[0]), steps[1..], cfg, maxDebt);
    }
  }

  // ------------------------------------------- a late debit is an early one, end to end

  /** What a run of claims does to the balance, one entry for each usable claim. */
  function OpsOf(c: Cell, steps: seq<Step>): seq<Op>
    decreases |steps|
  {
    if steps == [] then []
    else
      var rest := OpsOf(Apply(c, steps[0]), steps[1..]);
      if !steps[0].AcquireStep? then rest
      else match Acquire(c, steps[0].cost, steps[0].cfg, steps[0].mark, steps[0].ttl, steps[0].now).1
        case Acquired(_) => [Spend(steps[0].cost, steps[0].now)] + rest
        case Declined(_, _) => [Decline(steps[0].now)] + rest
        case Unusable(_) => rest
  }

  /** Claims under one configuration, none of which finds the bucket expired. */
  ghost predicate ClaimsWhileStored(c: Cell, cfg: Config, steps: seq<Step>)
    decreases |steps|
  {
    steps == [] ||
    (&& steps[0].AcquireStep? && steps[0].cfg == cfg
     && c.Stored(steps[0].now).Some?
     && ClaimsWhileStored(Apply(c, steps[0]), cfg, steps[1..]))
  }

  lemma {:induction false} ClaimsRun(c: Cell, cfg: Config, steps: seq<Step>, markId: string)
    requires cfg.Usable() && c.bucket.Some? && ClaimsWhileStored(c, cfg, steps) && NeverClaims(steps, markId)
    requires markId in c.marks && Current(c, markId) && c.marks[markId].value.epoch.Some?
    ensures var c', b := RunSteps(c, steps), c.bucket.value.value;
      && c'.bucket.Some?
      && c'.bucket.value.value == b.(bal := Run(b.bal, cfg, OpsOf(c, steps)))
      && markId in c'.marks && c'.marks[markId] == c.marks[markId]
    decreases |steps|
  {
    if steps != [] {
      var next := Apply(c, steps[0]);
      var b := c.bucket.value.value;
      assert forall i :: 0 <= i < |steps[1..]| ==> steps[1..][i] == steps[i + 1];
      assert next.bucket.Some? && next.marks[markId] == c.marks[markId];
      ClaimsRun(next, cfg, steps[1..], markId);
      var ops, rest := OpsOf(c, steps), OpsOf(next, steps[1..]);
      if UnusableBudget(steps[0].cost, cfg).None? {
        assert ops[1..] == rest;
        assert next.bucket.value.value.bal == Run(b.bal, cfg, [ops[0]]);
      }
    }
  }

  /** A marked claim leaves the balance it spent from, less the cost, and its own mark. */
  lemma MarkedClaim(c: Cell, cfg: Config, claimed: real, mark: ClaimMark, ttl: int, at: int)
    requires Acquire(c, claimed, cfg, Some(mark), ttl, at).1.Acquired?
    ensures var c1, b := Acquire(c, claimed, cfg, Some(mark), ttl, at).0, c.Reading(cfg, at);
      && cfg.Usable() && c1.bucket.Some? && mark.id in c1.marks
      && var stored := c1.bucket.value.value;
      && stored.bal == b.(tokens := b.tokens - claimed) && stored.epoch.Some?
      && c1.marks[mark.id].value == Mark(claimed, b.overflow, b.fills, stored.generation, stored.epoch, stored.forgiven)
  {
  }

  /** Settling a live mark against a live bucket moves its balance by what is applied. */
  lemma SettlementMovesBalance(c: Cell, markId: string, actual: real, cfg: Config, maxDebt: real, now: int)
    requires c.Stored(now).Some? && Live(c.marks, markId, now).Some? && actual >= 0.0 && cfg.Usable()
    ensures var (c', result), b := Settle(c, markId, actual, cfg, maxDebt, now), c.Stored(now).value;
      var o := Decide(b, c.marks[markId].value, actual, cfg, maxDebt, now);
      && result == SettleResult(true, o.applied, o.unapplied)
      && c'.bucket.Some?
      && c'.bucket.value.value.bal.tokens == Refill(b.bal, cfg, now).tokens - o.applied
      && c'.bucket.value.value.bal.lastUpdate == Refill(b.bal, cfg, now).lastUpdate
  {
  }

  /**
   * The whole story of one marked claim. It takes `claimed`; others claim, are
   * declined and leave marks of their own; then it is settled at `actual >= claimed`.
   * The stored balance ends as if `actual` had been taken at once and the others had
   * spent what they spent, short only of what the debt limit left unapplied.
   */
  lemma LateSettlementIsEarlyClaim(c: Cell, cfg: Config, claimed: real, mark: ClaimMark, ttl: int, at: int,
      others: seq<Step>, actual: real, maxDebt: real, now: int)
    requires Acquire(c, claimed, cfg, Some(mark), ttl, at).1.Acquired? && actual >= claimed
    requires var c1 := Acquire(c, claimed, cfg, Some(mark), ttl, at).0;
      && ClaimsWhileStored(c1, cfg, others) && NeverClaims(others, mark.id)
      && RunSteps(c1, others).Stored(now).Some? && Live(RunSteps(c1, others).marks, mark.id, now).Some?
    ensures
      var c1 := Acquire(c, claimed, cfg, Some(mark), ttl, at).0;
      var atOnce := c.Reading(cfg, at).(tokens := c.Reading(cfg, at).tokens - actual);
      var (c2, result) := Settle(RunSteps(c1, others), mark.id, actual, cfg, maxDebt, now);
      && result.settled && c2.bucket.Some?
      && c2.bucket.value.value.bal.tokens
         == Refill(Run(atOnce, cfg, OpsOf(c1, others)), cfg, now).tokens + result.unapplied
      && c2.bucket.value.value.bal.lastUpdate == Refill(Run(atOnce, cfg, OpsOf(c1, others)), cfg, now).lastUpdate
  {
    var c1, b := Acquire(c, claimed, cfg, Some(mark), ttl, at).0, c.Reading(cfg, at);
    MarkedClaim(c, cfg, claimed, mark, ttl, at);
    var b1 := c1.bucket.value.value;
    ClaimsRun(c1, cfg, others, mark.id);
    SettlementMovesBalance(RunSteps(c1, others), mark.id, actual, cfg, maxDebt, now);
    LateDebitIsEarlyDebit(b, cfg, claimed, actual, OpsOf(c1, others), now, maxDebt, b1.forgiven, b1.generation, b1.epoch.value);
  }

  /**
   * And settled at `actual <= claimed`: the bucket gets the difference back, up to its
   * ceiling, unless it has been at its ceiling since the claim; then it gets nothing.
   */
  lemma LateRefundUnlessFilled(c: Cell, cfg: Config, claimed: real, mark: ClaimMark, ttl: int, at: int,
      others: seq<Step>, actual: real, maxDebt: real, now: int)
    requires Acquire(c, claimed, cfg, Some(mark), ttl, at).1.Acquired? && 0.0 <= actual <= claimed
    requires var c1 := Acquire(c, claimed, cfg, Some(mark), ttl, at).0;
      && ClaimsWhileStored(c1, cfg, others) && NeverClaims(others, mark.id)
      && RunSteps(c1, others).Stored(now).Some? && Live(RunSteps(c1, others).marks, mark.id, now).Some?
    ensures
      var c1 := Acquire(c, claimed, cfg, Some(mark), ttl, at).0;
      var spent := c.Reading(cfg, at).(tokens := c.Reading(cfg, at).tokens - claimed);
      var ops := OpsOf(c1, others);
      var late := Refill(Run(spent, cfg, ops), cfg, now);
      var (c2, result) := Settle(RunSteps(c1, others), mark.id, actual, cfg, maxDebt, now);
      && result.settled && c2.bucket.Some?
      && c2.bucket.value.value.bal.tokens
         == (if Filled(spent, cfg, ops + [Decline(now)]) then late.tokens else Min(cfg.maxTokens, late.tokens + (claimed - actual)))
      && c2.bucket.value.value.bal.lastUpdate == late.lastUpdate
  {
    var c1, b := Acquire(c, claimed, cfg, Some(mark), ttl, at).0, c.Reading(cfg, at);
    MarkedClaim(c, cfg, claimed, mark, ttl, at);
    var b1 := c1.bucket.value.value;
    ClaimsRun(c1, cfg, others, mark.id);
    SettlementMovesBalance(RunSteps(c1, others), mark.id, actual, cfg, maxDebt, now);
    LateCreditUnlessFilled(b, cfg, claimed, actual, OpsOf(c1, others), now, maxDebt, b1.forgiven, b1.generation, b1.epoch.value);
  }
}
