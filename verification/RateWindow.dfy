/**
 * The rate limit itself: how much cost one bucket can admit in a stretch of time,
 * over every run of claims and freezes under one configuration, key expiries included.
 */
module RateWindow {
  import opened Numbers
  import opened TokenBucket
  import opened Buckets
  import opened BucketRuns

  /** How many intervals refill the bucket from empty. */
  function FullRefill(cfg: Config): int
    requires cfg.tokensToAdd > 0.0
  {
    Ceil(cfg.maxTokens / cfg.tokensToAdd)
  }

  /** A usable budget that refills, and whose refill from empty fits a storable lifetime. */
  ghost predicate Metered(cfg: Config) {
    && cfg.Usable() && cfg.interval > 0
    && CeilDiv(FullRefill(cfg) * cfg.interval, 1000) <= REDIS_MAX_TTL_SECONDS
  }

  /** How far below zero a bucket may end: its debt limit, or the claim tolerance if that is more. */
  function Slip(cfg: Config, maxDebt: real): real { Max(maxDebt, BALANCE_TOLERANCE * cfg.maxTokens) }

  /** Everything that spends from a bucket or gives back to it, under one configuration. */
  predicate Charges(step: Step, cfg: Config, maxDebt: real) {
    Under(step, cfg, maxDebt) && !step.ResetStep?
  }

  /** The steps that only claim or empty. */
  predicate OnlyClaims(step: Step, cfg: Config) {
    match step
    case AcquireStep(_, c, _, _, _) => c == cfg
    case EmptyStep(c, _) => c == cfg
    case TouchMarkStep(_, _, _) => true
    case MintStep(_) => true
    case _ => false
  }

  ghost predicate Chronological(steps: seq<Step>, cfg: Config, maxDebt: real, first: int, last: int) {
    && (forall i :: 0 <= i < |steps| ==> Charges(steps[i], cfg, maxDebt) && first <= steps[i].now <= last)
    && forall i, j :: 0 <= i < j < |steps| ==> steps[i].now <= steps[j].now
  }

  ghost predicate AllOnlyClaim(steps: seq<Step>, cfg: Config) {
    forall i :: 0 <= i < |steps| ==> OnlyClaims(steps[i], cfg)
  }

  /** The cost a step admits. */
  function Admits(c: Cell, step: Step): real {
    if step.AcquireStep? && Acquire(c, step.cost, step.cfg, step.mark, step.ttl, step.now).1.Acquired?
    then step.cost else 0.0
  }

  function Admitted(c: Cell, steps: seq<Step>): real
    decreases |steps|
  {
    if steps == [] then 0.0 else Admits(c, steps[0]) + Admitted(Apply(c, steps[0]), steps[1..])
  }

  function TokensOf(c: Cell): real { if c.bucket.Some? then c.bucket.value.value.bal.tokens else 0.0 }

  /** What a step takes: the cost admitted, the correction settled, or less than nothing for a refund. */
  function Charge(c: Cell, step: Step): real {
    match step
    case SettleStep(markId, actual, cfg, maxDebt, now) => Settle(c, markId, actual, cfg, maxDebt, now).1.applied
    case CreditStep(cost, maxTokens, now) => TokensOf(c) - TokensOf(Credit(c, cost, maxTokens, now))
    case _ => Admits(c, step)
  }

  function Charged(c: Cell, steps: seq<Step>): real
    decreases |steps|
  {
    if steps == [] then 0.0 else Charge(c, steps[0]) + Charged(Apply(c, steps[0]), steps[1..])
  }

  /** The refill that a step throws away at the ceiling. */
  function Spill(c: Cell, step: Step): real {
    var next := Apply(c, step);
    if next.bucket.Some? && next.bucket != c.bucket
    then next.bucket.value.value.bal.overflow - OverflowOf(c.Stored(step.now)) else 0.0
  }

  function Spilled(c: Cell, steps: seq<Step>): real
    decreases |steps|
  {
    if steps == [] then 0.0 else Spill(c, steps[0]) + Spilled(Apply(c, steps[0]), steps[1..])
  }

  /** Whether a step writes the balance of the bucket. */
  predicate Writes(c: Cell, step: Step) {
    match step
    case AcquireStep(cost, _, _, _, _) => cost >= 0.0
    case EmptyStep(_, _) => true
    case SettleStep(markId, actual, cfg, maxDebt, now) =>
      Settle(c, markId, actual, cfg, maxDebt, now).1.settled && c.Stored(now).Some?
    case CreditStep(cost, _, now) => cost >= 0.0 && c.Stored(now).Some?
    case _ => false
  }

  /** Whether a step that writes the bucket finds its key expired. */
  function Expires(c: Cell, step: Step): nat {
    if Writes(c, step) && c.bucket.Some? && step.now >= c.bucket.value.expiresAt then 1 else 0
  }

  function Expiries(c: Cell, steps: seq<Step>): nat
    decreases |steps|
  {
    if steps == [] then 0 else Expires(c, steps[0]) + Expiries(Apply(c, steps[0]), steps[1..])
  }

  /** What every reachable bucket satisfies at time `last`. */
  ghost predicate Sound(c: Cell, cfg: Config, maxDebt: real, last: int)
    requires Metered(cfg)
  {
    && WithinBounds(c, cfg, maxDebt)
    && (c.bucket.Some? ==>
        && c.bucket.value.value.bal.lastUpdate <= last
        && c.bucket.value.value.bal.lastUpdate + FullRefill(cfg) * cfg.interval <= c.bucket.value.expiresAt)
  }

  lemma TtlCoversFullRefill(cfg: Config, ttl: int)
    requires Metered(cfg)
    ensures FullRefill(cfg) * cfg.interval <= BucketTtl(ttl, cfg) * 1000
    ensures FullRefill(cfg) as real * cfg.tokensToAdd >= cfg.maxTokens && FullRefill(cfg) >= 1
    ensures FullRefill(cfg) * cfg.interval <= BucketTtl(DAY_SECONDS, cfg) * 1000
  {
    Divide(0.0, cfg.maxTokens, cfg.tokensToAdd);
    Credited(FullRefill(cfg), cfg.maxTokens, cfg.tokensToAdd);
  }

  lemma ApplySound(c: Cell, step: Step, cfg: Config, maxDebt: real, last: int)
    requires Metered(cfg) && Sound(c, cfg, maxDebt, last) && Charges(step, cfg, maxDebt) && last <= step.now
    ensures Sound(Apply(c, step), cfg, maxDebt, step.now)
  {
    var now := step.now;
    var bal := Origin(c, cfg, now);
    TtlCoversFullRefill(cfg, if step.AcquireStep? then step.ttl else DAY_SECONDS);
    RefillIsCurrent(bal, cfg, now);
    ApplyWithinBounds(c, step, cfg, maxDebt);
  }

  /**
   * The account of a window that opened at `start`: what it was charged, what it spilled,
   * both in `charged`, and what the bucket still holds came out of one full bucket, the
   * `credited` intervals, which all lie inside the window but for one, and a slip for each
   * expiry.
   */
  ghost predicate Accounted(bal: Balance, cfg: Config, slip: real, start: int, charged: real, expiries: nat, credited: int) {
    && charged + bal.tokens <= cfg.maxTokens + credited as real * cfg.tokensToAdd + expiries as real * slip
    && (credited - 1) * cfg.interval <= bal.lastUpdate - start
  }

  /** A refill credits what its intervals allow, kept or spilled. */
  lemma AccountRefill(bal: Balance, cfg: Config, slip: real, start: int, charged: real, expiries: nat, credited: int, now: int)
    requires cfg.tokensToAdd > 0.0 && Accounted(bal, cfg, slip, start, charged, expiries, credited)
    ensures Accounted(Refill(bal, cfg, now), cfg, slip, start,
      charged + (Refill(bal, cfg, now).overflow - bal.overflow), expiries, credited + Intervals(cfg, bal.lastUpdate, now))
  {
    var n := Intervals(cfg, bal.lastUpdate, now);
    RefillGrows(bal, cfg, now);
    assert (credited + n) as real * cfg.tokensToAdd == credited as real * cfg.tokensToAdd + n as real * cfg.tokensToAdd;
    assert (credited + n - 1) * cfg.interval == (credited - 1) * cfg.interval + n * cfg.interval;
  }

  /** A bucket recreated full is paid for by the intervals its key outlived, and its debt by a slip. */
  lemma AccountExpiry(bal: Balance, cfg: Config, slip: real, start: int, charged: real, expiries: nat, credited: int, now: int)
    requires Metered(cfg) && Accounted(bal, cfg, slip, start, charged, expiries, credited)
    requires bal.tokens >= -slip
    requires bal.lastUpdate + FullRefill(cfg) * cfg.interval <= now
    ensures Accounted(Fresh(cfg, now), cfg, slip, start, charged, expiries + 1, credited + FullRefill(cfg))
  {
    var full := FullRefill(cfg);
    TtlCoversFullRefill(cfg, DAY_SECONDS);
    assert (credited + full) as real * cfg.tokensToAdd == credited as real * cfg.tokensToAdd + full as real * cfg.tokensToAdd;
    assert (credited + full - 1) * cfg.interval == (credited - 1) * cfg.interval + full * cfg.interval;
    assert (expiries + 1) as real * slip == expiries as real * slip + slip;
  }

  /** A charge moves cost from the balance to the tally; an emptying only drops some. */
  lemma AccountSpend(bal: Balance, after: Balance, cfg: Config, slip: real, start: int, charged: real, cost: real,
      expiries: nat, credited: int)
    requires Accounted(bal, cfg, slip, start, charged, expiries, credited)
    requires after.tokens + cost <= bal.tokens && after.lastUpdate >= bal.lastUpdate
    ensures Accounted(after, cfg, slip, start, charged + cost, expiries, credited)
  {
  }

  /** The balance a step starts from: the stored one, or a fresh one. */
  function Origin(c: Cell, cfg: Config, now: int): Balance {
    if c.Stored(now).Some? then c.Stored(now).value.bal else Fresh(cfg, now)
  }

  /** Whether a step refills before it writes. */
  predicate Refills(step: Step) { step.AcquireStep? || step.SettleStep? }

  /** What a step of a run does to the balance and the tally. */
  lemma StepEffect(c: Cell, step: Step, cfg: Config, maxDebt: real)
    requires cfg.Usable() && Charges(step, cfg, maxDebt)
    ensures var next, bal := Apply(c, step), Origin(c, cfg, step.now);
      if !Writes(c, step) then next.bucket == c.bucket && Charge(c, step) == 0.0 && Spill(c, step) == 0.0
      else
        && next.bucket.Some?
        && var b, r := next.bucket.value.value.bal, if Refills(step) then Refill(bal, cfg, step.now) else bal;
        && b.tokens + Charge(c, step) <= r.tokens
        && b.lastUpdate == (if step.EmptyStep? then step.now else r.lastUpdate)
  {
  }

  /** A step that writes spills no more than its refill does. */
  lemma SpillEffect(c: Cell, step: Step, cfg: Config, maxDebt: real)
    requires cfg.Usable() && Charges(step, cfg, maxDebt) && Writes(c, step)
    ensures var bal := Origin(c, cfg, step.now);
      Spill(c, step) <= (if Refills(step) then Refill(bal, cfg, step.now).overflow - bal.overflow else 0.0)
  {
    RefillGrows(Origin(c, cfg, step.now), cfg, step.now);
  }

  /** A step that writes, from the balance it starts from. */
  lemma AccountWrite(c: Cell, step: Step, cfg: Config, maxDebt: real, start: int, charged: real, expiries: nat, credited: int)
      returns (credited': int)
    requires Metered(cfg) && Charges(step, cfg, maxDebt) && Writes(c, step)
    requires Accounted(Origin(c, cfg, step.now), cfg, Slip(cfg, maxDebt), start, charged, expiries, credited)
    requires Origin(c, cfg, step.now).lastUpdate <= step.now
    ensures Apply(c, step).bucket.Some?
    ensures Accounted(Apply(c, step).bucket.value.value.bal, cfg, Slip(cfg, maxDebt), start,
      charged + Charge(c, step) + Spill(c, step), expiries, credited')
  {
    var bal, slip, spill := Origin(c, cfg, step.now), Slip(cfg, maxDebt), 0.0;
    StepEffect(c, step, cfg, maxDebt);
    SpillEffect(c, step, cfg, maxDebt);
    credited' := credited;
    if Refills(step) {
      AccountRefill(bal, cfg, slip, start, charged, expiries, credited, step.now);
      credited' := credited + Intervals(cfg, bal.lastUpdate, step.now);
      spill := Refill(bal, cfg, step.now).overflow - bal.overflow;
      bal := Refill(bal, cfg, step.now);
    }
    AccountSpend(bal, Apply(c, step).bucket.value.value.bal, cfg, slip, start, charged + spill, Charge(c, step), expiries, credited');
  }

  lemma SlipIsPositive(cfg: Config, maxDebt: real)
    requires cfg.Usable()
    ensures Slip(cfg, maxDebt) > 0.0
  {
  }

  lemma AccountStep(c: Cell, step: Step, cfg: Config, maxDebt: real, last: int, start: int, charged: real, expiries: nat, credited: int)
      returns (expiries': nat, credited': int)
    requires Metered(cfg) && Sound(c, cfg, maxDebt, last) && Charges(step, cfg, maxDebt) && last <= step.now && c.bucket.Some?
    requires Accounted(c.bucket.value.value.bal, cfg, Slip(cfg, maxDebt), start, charged, expiries, credited)
    ensures Apply(c, step).bucket.Some? && expiries' == expiries + Expires(c, step)
    ensures Accounted(Apply(c, step).bucket.value.value.bal, cfg, Slip(cfg, maxDebt), start,
      charged + Charge(c, step) + Spill(c, step), expiries', credited')
  {
    var bal := c.bucket.value.value.bal;
    expiries' := expiries + Expires(c, step);
    if !Writes(c, step) {
      StepEffect(c, step, cfg, maxDebt);
      credited' := credited;
    } else if Expires(c, step) == 1 {
      AccountExpiry(bal, cfg, Slip(cfg, maxDebt), start, charged, expiries, credited, step.now);
      credited' := AccountWrite(c, step, cfg, maxDebt, start, charged, expiries', credited + FullRefill(cfg));
    } else {
      credited' := AccountWrite(c, step, cfg, maxDebt, start, charged, expiries', credited);
    }
  }

  /** The bound a window of length `span` promises, with `slips` slips of `slip` each. */
  function WindowBound(cfg: Config, slip: real, span: int, slips: nat): real
    requires cfg.interval > 0
  {
    cfg.maxTokens + (span / cfg.interval + 1) as real * cfg.tokensToAdd + slips as real * slip
  }

  lemma {:induction false} AccountRun(c: Cell, steps: seq<Step>, cfg: Config, maxDebt: real, last: int, start: int, end: int,
      charged: real, expiries: nat, credited: int)
    requires Metered(cfg) && Sound(c, cfg, maxDebt, last) && start <= last <= end && Chronological(steps, cfg, maxDebt, last, end)
    requires c.bucket.Some? && Accounted(c.bucket.value.value.bal, cfg, Slip(cfg, maxDebt), start, charged, expiries, credited)
    ensures charged + Charged(c, steps) + Spilled(c, steps)
      <= WindowBound(cfg, Slip(cfg, maxDebt), end - start, expiries + Expiries(c, steps) + 1)
    decreases |steps|
  {
    if steps == [] {
      AccountCloses(c.bucket.value.value.bal, cfg, Slip(cfg, maxDebt), last, start, end, charged, expiries, credited);
    } else {
      var expiries', credited' := AccountStep(c, steps[0], cfg, maxDebt, last, start, charged, expiries, credited);
      ApplySound(c, steps[0], cfg, maxDebt, last);
      AccountRun(Apply(c, steps[0]), steps[1..], cfg, maxDebt, steps[0].now, start, end,
        charged + Charge(c, steps[0]) + Spill(c, steps[0]), expiries', credited');
    }
  }

  /** A window can be closed at any time after its last step. */
  lemma AccountCloses(bal: Balance, cfg: Config, slip: real, last: int, start: int, end: int, charged: real, expiries: nat, credited: int)
    requires Metered(cfg) && start <= end && bal.lastUpdate <= last <= end
    requires bal.tokens >= -slip
    requires Accounted(bal, cfg, slip, start, charged, expiries, credited)
    ensures charged <= WindowBound(cfg, slip, end - start, expiries + 1)
  {
    var d := cfg.interval;
    Quotient((credited - 1) * d, d, credited - 1);
    QuotientMonotone((credited - 1) * d, end - start, d);
    Scale(credited, (end - start) / d + 1, cfg.tokensToAdd);
    assert (expiries + 1) as real * slip == expiries as real * slip + slip;
  }

  lemma {:induction false} RunSound(c: Cell, steps: seq<Step>, cfg: Config, maxDebt: real, first: int, last: int)
    requires Metered(cfg) && Sound(c, cfg, maxDebt, first) && first <= last && Chronological(steps, cfg, maxDebt, first, last)
    ensures Sound(RunSteps(c, steps), cfg, maxDebt, last)
    decreases |steps|
  {
    if steps != [] {
      ApplySound(c, steps[0], cfg, maxDebt, first);
      RunSound(Apply(c, steps[0]), steps[1..], cfg, maxDebt, steps[0].now, last);
    }
  }

  /** Whether a step opens the account of a window: it writes the balance as of its own time. */
  predicate Opens(c: Cell, step: Step) { Writes(c, step) && !step.CreditStep? }

  lemma WindowOpens(c: Cell, step: Step, cfg: Config, maxDebt: real, start: int, first: int)
    requires Metered(cfg) && Charges(step, cfg, maxDebt) && Sound(c, cfg, maxDebt, first) && first <= start <= step.now
    requires Opens(c, step)
    ensures Apply(c, step).bucket.Some?
    ensures Accounted(Apply(c, step).bucket.value.value.bal, cfg, Slip(cfg, maxDebt), start,
      Charge(c, step), Expires(c, step), 0)
  {
    var bal := Origin(c, cfg, step.now);
    StepEffect(c, step, cfg, maxDebt);
    RefillGrows(bal, cfg, step.now);
    RefillIsCurrent(bal, cfg, step.now);
    SlipIsPositive(cfg, maxDebt);
    Scale(0, Expires(c, step), Slip(cfg, maxDebt));
  }

  /** Until then a window is charged nothing: a refund only gives back. */
  lemma BeforeOpening(c: Cell, step: Step, cfg: Config, maxDebt: real, last: int)
    requires Metered(cfg) && Charges(step, cfg, maxDebt) && Sound(c, cfg, maxDebt, last) && !Opens(c, step)
    ensures Charge(c, step) <= 0.0
  {
    StepEffect(c, step, cfg, maxDebt);
  }

  lemma WindowBoundGrows(cfg: Config, slip: real, span: int, m: nat, n: nat)
    requires Metered(cfg) && span >= 0 && m <= n && slip > 0.0
    ensures 0.0 <= WindowBound(cfg, slip, span, m) <= WindowBound(cfg, slip, span, n)
  {
    QuotientMonotone(0, span, cfg.interval);
    Scale(0, span / cfg.interval + 1, cfg.tokensToAdd);
    Scale(0, m, slip);
    Scale(m, n, slip);
  }

  // ------------------------------------------------------ what settlements forgive

  /** No claim has left a mark since the watch began. */
  ghost predicate Unmarked(w: Watch) { w.recent == {} && w.origin == map[] }

  /** What a watch counts as forgiven does not depend on what it counts as discarded. */
  lemma {:induction false} GrantedAlike(w: Watch, discarded: real, steps: seq<Step>)
    ensures ObserveAll(w.(discarded := discarded), steps).granted == ObserveAll(w, steps).granted
    ensures ObserveAll(w, steps).discarded == w.discarded + Spilled(w.cell, steps)
    decreases |steps|
  {
    if steps != [] {
      var next := Observe(w, steps[0]);
      GrantedAlike(next, Observe(w.(discarded := discarded), steps[0]).discarded, steps[1..]);
    }
  }

  lemma {:induction false} GrantedFrom(w: Watch, granted: real, steps: seq<Step>)
    ensures ObserveAll(w.(granted := w.granted + granted), steps).granted == ObserveAll(w, steps).granted + granted
    decreases |steps|
  {
    if steps != [] {
      var next := Observe(w, steps[0]);
      assert Observe(w.(granted := w.granted + granted), steps[0]) == next.(granted := next.granted + granted);
      GrantedFrom(next, granted, steps[1..]);
    }
  }

  lemma OpeningForgivesOnce(w: Watch, step: Step)
    requires EpochsIssued(w.cell) && Unmarked(w)
    ensures ForgivesOnce(Observe(w, step).(discarded := 0.0, granted := 0.0)) && Observe(w, step).granted == w.granted
  {
  }

  /** A window that opens with this step forgives, from then on, no more than it spills. */
  lemma OpeningForgives(w: Watch, step: Step, rest: seq<Step>)
    requires EpochsIssued(w.cell) && Unmarked(w)
    ensures ObserveAll(Observe(w, step), rest).granted - w.granted <= Spilled(Apply(w.cell, step), rest)
  {
    var next := Observe(w, step);
    var first := next.(discarded := 0.0, granted := 0.0);
    OpeningForgivesOnce(w, step);
    RunForgivesOnce(first, rest);
    GrantedAlike(first, next.discarded, rest);
    GrantedFrom(first.(discarded := next.discarded), w.granted, rest);
    assert first.(discarded := next.discarded).(granted := 0.0 + w.granted) == next;
  }

  lemma {:induction false} WindowFrom(w: Watch, steps: seq<Step>, cfg: Config, maxDebt: real, start: int, end: int, first: int)
    requires Metered(cfg) && first <= start <= end && Sound(w.cell, cfg, maxDebt, first)
    requires EpochsIssued(w.cell) && Unmarked(w) && Chronological(steps, cfg, maxDebt, start, end)
    ensures Charged(w.cell, steps) + (ObserveAll(w, steps).granted - w.granted)
      <= WindowBound(cfg, Slip(cfg, maxDebt), end - start, Expiries(w.cell, steps) + 1)
    decreases |steps|
  {
    SlipIsPositive(cfg, maxDebt);
    if steps == [] {
      WindowBoundGrows(cfg, Slip(cfg, maxDebt), end - start, 1, 1);
    } else {
      var c, step, rest := w.cell, steps[0], steps[1..];
      var next := Apply(c, step);
      ApplySound(c, step, cfg, maxDebt, first);
      if Opens(c, step) {
        OpenedWindow(w, step, rest, cfg, maxDebt, start, end, first);
      } else {
        BeforeOpening(c, step, cfg, maxDebt, first);
        StillSound(c, step, cfg, maxDebt, first);
        NothingGranted(w, step);
        WindowFrom(Observe(w, step), rest, cfg, maxDebt, start, end, first);
        WindowBoundGrows(cfg, Slip(cfg, maxDebt), end - start, Expiries(next, rest) + 1, Expiries(c, steps) + 1);
      }
    }
  }

  /** From the step on that opens its account. */
  lemma OpenedWindow(w: Watch, step: Step, rest: seq<Step>, cfg: Config, maxDebt: real, start: int, end: int, first: int)
    requires Metered(cfg) && Charges(step, cfg, maxDebt) && Sound(w.cell, cfg, maxDebt, first) && first <= start <= step.now <= end
    requires EpochsIssued(w.cell) && Unmarked(w) && Opens(w.cell, step) && Chronological(rest, cfg, maxDebt, step.now, end)
    ensures Charge(w.cell, step) + Charged(Apply(w.cell, step), rest) + (ObserveAll(Observe(w, step), rest).granted - w.granted)
      <= WindowBound(cfg, Slip(cfg, maxDebt), end - start, Expires(w.cell, step) + Expiries(Apply(w.cell, step), rest) + 1)
  {
    var c := w.cell;
    ApplySound(c, step, cfg, maxDebt, first);
    WindowOpens(c, step, cfg, maxDebt, start, first);
    AccountRun(Apply(c, step), rest, cfg, maxDebt, step.now, start, end, Charge(c, step), Expires(c, step), 0);
    OpeningForgives(w, step, rest);
  }

  lemma NothingGranted(w: Watch, step: Step)
    requires EpochsIssued(w.cell) && Unmarked(w) && !Opens(w.cell, step)
    ensures var next := Observe(w, step);
      next.cell == Apply(w.cell, step) && EpochsIssued(next.cell) && Unmarked(next) && next.granted == w.granted
  {
  }

  /** A step that opens no account leaves the bucket's clock alone. */
  lemma StillSound(c: Cell, step: Step, cfg: Config, maxDebt: real, last: int)
    requires Metered(cfg) && Charges(step, cfg, maxDebt) && Sound(c, cfg, maxDebt, last) && !Opens(c, step)
    ensures Sound(Apply(c, step), cfg, maxDebt, last)
  {
    ApplyWithinBounds(c, step, cfg, maxDebt);
    StepEffect(c, step, cfg, maxDebt);
  }

  /**
   * What a bucket can be charged. After any run at all, what claims and settlements took
   * between `start` and `end`, less what refunds gave back, and with it what settlements
   * forgave the claims made in that time, is at most one full bucket and one refill for
   * every interval the window touches, with one slip for the window and one for each time
   * a step found the key expired. A slip is the debt limit or the claim tolerance,
   * whichever is more: it never accumulates from claim to claim, and a recreated full
   * bucket is always paid for by the refill its key outlived.
   */
  lemma NetUseIsBounded(before: seq<Step>, window: seq<Step>, cfg: Config, maxDebt: real, origin: int, start: int, end: int)
    requires Metered(cfg) && origin <= start <= end
    requires Chronological(before, cfg, maxDebt, origin, start) && Chronological(window, cfg, maxDebt, start, end)
    ensures var c := RunSteps(EMPTY_CELL, before);
      Charged(c, window) + ObserveAll(Begin(c), window).granted
        <= WindowBound(cfg, Slip(cfg, maxDebt), end - start, Expiries(c, window) + 1)
  {
    RunSound(EMPTY_CELL, before, cfg, maxDebt, origin, start);
    RunForgivenWithinOverflow(EMPTY_CELL, before);
    WindowFrom(Begin(RunSteps(EMPTY_CELL, before)), window, cfg, maxDebt, start, end, start);
  }

  lemma {:induction false} GrantedGrows(w: Watch, steps: seq<Step>)
    ensures ObserveAll(w, steps).granted >= w.granted
    decreases |steps|
  {
    if steps != [] {
      GrantGrows(w, steps[0]);
      GrantedGrows(Observe(w, steps[0]), steps[1..]);
    }
  }

  lemma GrantGrows(w: Watch, step: Step)
    ensures Observe(w, step).granted >= w.granted
  {
  }

  /** So it is at most that with nothing forgiven counted. */
  lemma NetChargeIsBounded(before: seq<Step>, window: seq<Step>, cfg: Config, maxDebt: real, origin: int, start: int, end: int)
    requires Metered(cfg) && origin <= start <= end
    requires Chronological(before, cfg, maxDebt, origin, start) && Chronological(window, cfg, maxDebt, start, end)
    ensures var c := RunSteps(EMPTY_CELL, before);
      Charged(c, window) <= WindowBound(cfg, Slip(cfg, maxDebt), end - start, Expiries(c, window) + 1)
  {
    NetUseIsBounded(before, window, cfg, maxDebt, origin, start, end);
    GrantedGrows(Begin(RunSteps(EMPTY_CELL, before)), window);
  }

  lemma {:induction false} ClaimsAreCharged(c: Cell, steps: seq<Step>, cfg: Config)
    requires AllOnlyClaim(steps, cfg)
    ensures Charged(c, steps) == Admitted(c, steps)
    decreases |steps|
  {
    if steps != [] {
      assert OnlyClaims(steps[0], cfg);
      assert forall i :: 0 <= i < |steps[1..]| ==> steps[1..][i] == steps[i + 1];
      ClaimsAreCharged(Apply(c, steps[0]), steps[1..], cfg);
    }
  }

  /**
   * The rate limit. In a window of claims and emptyings, the cost admitted is at most that
   * much, whatever was settled and refunded before; and where nothing ever was, a slip is
   * the claim tolerance.
   */
  lemma RateLimitHolds(before: seq<Step>, window: seq<Step>, cfg: Config, maxDebt: real, origin: int, start: int, end: int)
    requires Metered(cfg) && origin <= start <= end
    requires Chronological(before, cfg, maxDebt, origin, start) && Chronological(window, cfg, maxDebt, start, end)
    requires AllOnlyClaim(window, cfg)
    ensures var c := RunSteps(EMPTY_CELL, before);
      && Admitted(c, window) <= WindowBound(cfg, Slip(cfg, maxDebt), end - start, Expiries(c, window) + 1)
      && (AllOnlyClaim(before, cfg) ==>
          Admitted(c, window) <= WindowBound(cfg, BALANCE_TOLERANCE * cfg.maxTokens, end - start, Expiries(c, window) + 1))
  {
    var c := RunSteps(EMPTY_CELL, before);
    NetChargeIsBounded(before, window, cfg, maxDebt, origin, start, end);
    ClaimsAreCharged(c, window, cfg);
    if AllOnlyClaim(before, cfg) {
      assert forall i :: 0 <= i < |before| ==> Charges(before[i], cfg, 0.0);
      assert forall i :: 0 <= i < |window| ==> Charges(window[i], cfg, 0.0);
      NetChargeIsBounded(before, window, cfg, 0.0, origin, start, end);
    }
  }
}
