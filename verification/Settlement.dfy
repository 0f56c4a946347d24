/**
 * Correcting a claim to what its response reported, long after the bucket has
 * refilled, spilled and been spent by others.
 */
module Settlement {
  import opened Numbers
  import opened TokenBucket

  /** `None` for an epoch is the empty string: no incarnation recorded. */
  datatype SettleInput = SettleInput(
    tokens: real,
    maxTokens: real,
    maxDebt: real,
    actual: real,
    claimed: real,
    overflowNow: real,
    overflowAtClaim: real,
    forgivenNow: real,
    forgivenAtClaim: real,
    fillsNow: nat,
    fillsAtClaim: nat,
    generationNow: int,
    generationAtClaim: int,
    epochNow: Option<nat>,
    epochAtClaim: Option<nat>)
  {
    /** The bucket is not the one the claim was made on, or was emptied or reset since. */
    predicate Stale() {
      || epochAtClaim.None?
      || epochNow != epochAtClaim
      || generationNow != generationAtClaim
      || overflowNow < overflowAtClaim
      || fillsNow < fillsAtClaim
    }
  }

  datatype SettleOutcome = SettleOutcome(applied: real, unapplied: real, forgiven: real)

  /** The change a settlement makes, split into what is applied, forgiven and left over. */
  function SettleAmount(s: SettleInput): (o: SettleOutcome)
    // A debit is conserved: taken now, forgiven, or reported as unapplied.
    ensures !s.Stale() && s.actual > s.claimed ==>
      && o.applied + o.unapplied + (o.forgiven - s.forgivenNow) == s.actual - s.claimed
      && o.applied >= 0.0 && o.unapplied >= 0.0 && o.forgiven >= s.forgivenNow
    // Forgiveness comes out of what this claim's stretch of refill still has to give.
    ensures o.forgiven > s.forgivenNow ==>
      o.forgiven - s.forgivenAtClaim <= s.overflowNow - s.overflowAtClaim
    // The balance never ends beyond the ceiling or the debt because of a settlement.
    ensures o.applied > 0.0 ==> s.tokens - o.applied >= -Max(s.maxDebt, 0.0)
    ensures o.applied < 0.0 ==> s.tokens - o.applied <= s.maxTokens
    // Only the debt limit leaves anything unapplied, and a credit gives back all that fits.
    ensures o.unapplied > 0.0 ==> s.tokens - o.applied <= -Max(s.maxDebt, 0.0)
    ensures !s.Stale() && s.actual <= s.claimed ==>
      && 0.0 <= -o.applied <= s.claimed - s.actual && o.unapplied == 0.0 && o.forgiven == s.forgivenNow
      && (s.fillsNow != s.fillsAtClaim ==> o.applied == 0.0)
      && (s.fillsNow == s.fillsAtClaim && -o.applied < s.claimed - s.actual ==> s.tokens - o.applied >= s.maxTokens)
    ensures s.Stale() ==> o.applied == 0.0 && o.unapplied == 0.0 && o.forgiven == s.forgivenNow
  {
    var none := SettleOutcome(0.0, 0.0, s.forgivenNow);
    if s.Stale() then none
    else
      var delta := s.actual - s.claimed;
      if delta > 0.0 then
        var slack := Max(0.0, s.overflowNow - s.overflowAtClaim - (s.forgivenNow - s.forgivenAtClaim));
        var used := Min(delta, slack);
        var owed := delta - used;
        var maxDebt := if s.maxDebt > 0.0 then s.maxDebt else 0.0;
        var room := Max(0.0, s.tokens + maxDebt);
        var applied := Min(owed, room);
        SettleOutcome(applied, owed - applied, s.forgivenNow + used)
      else if delta < 0.0 && s.fillsNow == s.fillsAtClaim then
        SettleOutcome(-Min(-delta, Max(0.0, s.maxTokens - s.tokens)), 0.0, s.forgivenNow)
      else none
  }

  // ---------------------------------------------- a late debit is an early one

  /** What may happen to a bucket between a claim and its settlement. */
  datatype Op = Decline(now: int) | Spend(cost: real, now: int)

  function After(b: Balance, cfg: Config, op: Op): Balance {
    var r := Refill(b, cfg, op.now);
    if op.Spend? then r.(tokens := r.tokens - op.cost) else r
  }

  function Run(b: Balance, cfg: Config, ops: seq<Op>): Balance
    decreases |ops|
  {
    if ops == [] then b
    else
      Run(After(b, cfg, ops[0]), cfg, ops[1..])
  }

  /**
   * `late` runs ahead of `early` by exactly what the bucket has not yet discarded of
   * `delta` since `origin`, the discarded total when both were taken.
   */
  ghost predicate Ahead(late: Balance, early: Balance, delta: real, origin: real) {
    && late.lastUpdate == early.lastUpdate
    && late.tokens - early.tokens == Max(0.0, delta - (late.overflow - origin))
  }

  lemma RefillKeepsAhead(late: Balance, early: Balance, cfg: Config, delta: real, origin: real, now: int)
    requires Ahead(late, early, delta, origin)
    ensures Ahead(Refill(late, cfg, now), Refill(early, cfg, now), delta, origin)
  {
  }

  lemma {:induction false} RunKeepsAhead(late: Balance, early: Balance, cfg: Config, ops: seq<Op>, delta: real,
        origin: real)
    requires Ahead(late, early, delta, origin) && cfg.tokensToAdd >= 0.0
    ensures Ahead(Run(late, cfg, ops), Run(early, cfg, ops), delta, origin)
    ensures Run(late, cfg, ops).overflow >= late.overflow && Run(late, cfg, ops).fills >= late.fills
    decreases |ops|
  {
    if ops != [] {
      var now := ops[0].now;
      RefillKeepsAhead(late, early, cfg, delta, origin, now);
      RefillGrows(late, cfg, now);
      var l, e := Refill(late, cfg, now), Refill(early, cfg, now);
      if ops[0].Spend? {
        RunKeepsAhead(l.(tokens := l.tokens - ops[0].cost), e.(tokens := e.tokens - ops[0].cost), cfg, ops[1..], delta, origin);
      } else {
        RunKeepsAhead(l, e, cfg, ops[1..], delta, origin);
      }
    }
  }

  /**
   * Take `claimed` from `b` now, let anything be refilled, declined and spent, then
   * settle at `actual >= claimed`: the balance is the one the bucket would have had
   * if `actual` had been taken at the claim, plus whatever the debt limit refused.
   */
  lemma LateDebitIsEarlyDebit(b: Balance, cfg: Config, claimed: real, actual: real, ops: seq<Op>, now: int,
        maxDebt: real, forgiven: real, generation: int, epoch: nat)
    requires actual >= claimed && cfg.tokensToAdd >= 0.0
    ensures
      var late := Refill(Run(b.(tokens := b.tokens - claimed), cfg, ops), cfg, now);
      var early := Refill(Run(b.(tokens := b.tokens - actual), cfg, ops), cfg, now);
      var o := SettleAmount(SettleInput(late.tokens, cfg.maxTokens, maxDebt, actual, claimed,
        late.overflow, b.overflow, forgiven, forgiven, late.fills, b.fills, generation, generation, Some(epoch), Some(epoch)));
      && late.tokens - o.applied == early.tokens + o.unapplied
      && late.lastUpdate == early.lastUpdate
  {
    var late, early := b.(tokens := b.tokens - claimed), b.(tokens := b.tokens - actual);
    RunKeepsAhead(late, early, cfg, ops, actual - claimed, b.overflow);
    RefillKeepsAhead(Run(late, cfg, ops), Run(early, cfg, ops), cfg, actual - claimed, b.overflow, now);
    RefillGrows(Run(late, cfg, ops), cfg, now);
  }

  // ------------------------------------------ a late credit, unless it was refilled

  /** Some refill of the run brought the balance to its ceiling. */
  predicate Filled(b: Balance, cfg: Config, ops: seq<Op>)
    decreases |ops|
  {
    ops != [] &&
    (|| Tops(b, cfg, ops[0].now)
     || Filled(After(b, cfg, ops[0]), cfg, ops[1..]))
  }

  lemma {:induction false} RunFills(b: Balance, cfg: Config, ops: seq<Op>)
    requires cfg.tokensToAdd >= 0.0
    ensures Run(b, cfg, ops).fills >= b.fills && Run(b, cfg, ops).overflow >= b.overflow
    ensures Run(b, cfg, ops).fills > b.fills <==> Filled(b, cfg, ops)
    decreases |ops|
  {
    if ops != [] {
      FillsExactly(b, cfg, ops[0].now);
      RefillGrows(b, cfg, ops[0].now);
      RunFills(After(b, cfg, ops[0]), cfg, ops[1..]);
    }
  }

  lemma {:induction false} RunThenRefill(b: Balance, cfg: Config, ops: seq<Op>, now: int)
    ensures Run(b, cfg, ops + [Decline(now)]) == Refill(Run(b, cfg, ops), cfg, now)
    decreases |ops|
  {
    if ops != [] {
      assert (ops + [Decline(now)])[1..] == ops[1..] + [Decline(now)];
      RunThenRefill(After(b, cfg, ops[0]), cfg, ops[1..], now);
    }
  }

  /**
   * Take `claimed` from `b` now, let anything be refilled, declined and spent, then
   * settle at `actual <= claimed`: the difference is given back, up to the ceiling, unless
   * the bucket has been at its ceiling since the claim, which has given it back already.
   */
  lemma LateCreditUnlessFilled(b: Balance, cfg: Config, claimed: real, actual: real, ops: seq<Op>, now: int,
        maxDebt: real, forgiven: real, generation: int, epoch: nat)
    requires actual <= claimed && cfg.tokensToAdd >= 0.0
    ensures
      var after := b.(tokens := b.tokens - claimed);
      var late := Refill(Run(after, cfg, ops), cfg, now);
      var o := SettleAmount(SettleInput(late.tokens, cfg.maxTokens, maxDebt, actual, claimed,
        late.overflow, b.overflow, forgiven, forgiven, late.fills, b.fills, generation, generation, Some(epoch), Some(epoch)));
      && late.tokens - o.applied
         == (if Filled(after, cfg, ops + [Decline(now)]) then late.tokens
             else Min(cfg.maxTokens, late.tokens + (claimed - actual)))
      && o.unapplied == 0.0 && o.forgiven == forgiven
  {
    var after := b.(tokens := b.tokens - claimed);
    RunFills(after, cfg, ops + [Decline(now)]);
    RunThenRefill(after, cfg, ops, now);
    RefillGrows(Run(after, cfg, ops), cfg, now);
  }

  /**
   * Persisting the refill on declines changes neither what a later claim is told nor
   * what a later settlement of an earlier claim does.
   */
  lemma DeclinesChangeNothing(b: Balance, cfg: Config, times: seq<int>, now: int, cost: real, s: SettleInput)
    requires cfg.tokensToAdd > 0.0 && Ascending(times, now) && s.fillsAtClaim <= b.fills
    ensures
      var direct, viaDeclines := Refill(b, cfg, now), Refill(RefillAt(b, cfg, times), cfg, now);
      && CoversCost(viaDeclines.tokens, cost, cfg.maxTokens) == CoversCost(direct.tokens, cost, cfg.maxTokens)
      && WaitTime(viaDeclines, cfg, cost, now) == WaitTime(direct, cfg, cost, now)
      && SettleAmount(s.(tokens := viaDeclines.tokens, overflowNow := viaDeclines.overflow, fillsNow := viaDeclines.fills))
         == SettleAmount(s.(tokens := direct.tokens, overflowNow := direct.overflow, fillsNow := direct.fills))
  {
    RefillPathIndependent(b, cfg, times, now);
  }
}
