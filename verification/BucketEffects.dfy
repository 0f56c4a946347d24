/**
 * What one operation on a bucket leaves for whatever comes after it: a mark that can be
 * settled for so long and no longer, an emptied balance, a full one.
 */
module BucketEffects {
  import opened Numbers
  import opened TokenBucket
  import opened Settlement
  import opened Buckets
  import opened BucketRuns

  // ------------------------------------------------------- how long a mark lasts

  /** The step writes the mark, or finds it alive and moves its expiry; `until` is the new one. */
  ghost predicate Arms(c: Cell, step: Step, id: string, until: int) {
    match step
    case AcquireStep(_, _, mark, _, now) =>
      MarkedBy(c, step) == Some(id) && until == now + mark.value.ttlSeconds * 1000
    case TouchMarkStep(markId, ttlSeconds, now) =>
      markId == id && Live(c.marks, id, now).Some? && until == now + ttlSeconds * 1000
    case _ => false
  }

  /** Neither claims under the mark, nor settles it, nor touches it. */
  predicate Spares(step: Step, id: string) {
    match step
    case AcquireStep(_, _, mark, _, _) => mark.None? || mark.value.id != id
    case SettleStep(markId, _, _, _, _) => markId != id
    case TouchMarkStep(markId, _, _) => markId != id
    case _ => true
  }

  lemma {:induction false} MarkStays(c: Cell, steps: seq<Step>, id: string)
    requires id in c.marks && forall i :: 0 <= i < |steps| ==> Spares(steps[i], id)
    ensures id in RunSteps(c, steps).marks && RunSteps(c, steps).marks[id] == c.marks[id]
    decreases |steps|
  {
    if steps != [] {
      assert Spares(steps[0], id);
      MarkStays(Apply(c, steps[0]), steps[1..], id);
    }
  }

  /**
   * Once a claim has left its mark, or a touch has found it, a settlement finds it up to
   * the end of the lifetime it was given and not from then on, whatever the bucket goes
   * through meanwhile; a touch leaves what the mark records as it was.
   */
  lemma MarkLastsExactly(c: Cell, step: Step, id: string, until: int, steps: seq<Step>, actual: real, cfg: Config,
        maxDebt: real, now: int)
    requires Arms(c, step, id, until) && forall i :: 0 <= i < |steps| ==> Spares(steps[i], id)
    requires actual >= 0.0 && cfg.Usable()
    ensures var later := RunSteps(Apply(c, step), steps);
      && (Settle(later, id, actual, cfg, maxDebt, now).1.settled <==> now < until)
      && id in later.marks
      && (step.TouchMarkStep? ==> later.marks[id].value == c.marks[id].value)
      && (step.AcquireStep? ==> later.marks[id].value.claimed == step.cost)
  {
    MarkStays(Apply(c, step), steps, id);
  }

  // -------------------------------------------------------- emptyings and resets

  /** The bucket's counters, its marks and the epochs are as they were; its generation is one on. */
  ghost predicate NextGeneration(c: Cell, d: Cell, now: int) {
    && d.bucket.Some? && d.marks == c.marks && d.epochs == c.epochs
    && var b := d.bucket.value.value;
       if c.Stored(now).Some? then
         var was := c.Stored(now).value;
         b == was.(bal := was.bal.(tokens := b.bal.tokens, lastUpdate := now), generation := was.generation + 1)
       else b == Bucket(Balance(b.bal.tokens, now, 0.0, 0), 0.0, 1, None)
  }

  /**
   * An emptied bucket holds nothing, a debt is kept, and while its key lives it comes to
   * hold only what the intervals since the emptying credit.
   */
  lemma EmptiedEarnsBack(c: Cell, cfg: Config, now: int, later: int)
    ensures var d := Empty(c, cfg, now);
      && NextGeneration(c, d, now)
      && d.bucket.value.value.bal.tokens <= 0.0
      && d.bucket.value.value.bal.tokens
         == (if c.Stored(now).Some? && c.Stored(now).value.bal.tokens < 0.0 then c.Stored(now).value.bal.tokens else 0.0)
      && (cfg.Usable() ==> d.bucket.value.expiresAt == now + BucketTtl(DAY_SECONDS, cfg) * 1000)
      && (cfg.Usable() && now <= later < d.bucket.value.expiresAt ==>
            d.Reading(cfg, later).tokens <= Intervals(cfg, now, later) as real * cfg.tokensToAdd)
  {
    var bal := Empty(c, cfg, now).bucket.value.value.bal;
    if cfg.Usable() {
      RefillGrows(bal, cfg, later);
    }
  }

  /** A bucket that was reset reads full at every later time, its key alive or not. */
  lemma ResetReadsFull(c: Cell, cfg: Config, now: int, later: int)
    requires cfg.Usable() && now <= later
    ensures var d := Reset(c, cfg.maxTokens, now);
      && NextGeneration(c, d, now)
      && d.Reading(cfg, later).tokens == cfg.maxTokens
  {
    RefillGrows(Balance(cfg.maxTokens, now, 0.0, 0), cfg, later);
    RefillGrows(Reset(c, cfg.maxTokens, now).bucket.value.value.bal, cfg, later);
  }

  /**
   * A refund reads, at any later time the key lives to, as the cost added to what would
   * have been read, up to the ceiling; it moves no clock, counter, mark or expiry, and
   * brings no absent bucket into being.
   */
  lemma CreditAddsExactly(c: Cell, cost: real, cfg: Config, now: int, later: int)
    requires cfg.Usable() && cost >= 0.0 && now <= later
    ensures var d := Credit(c, cost, cfg.maxTokens, now);
      && d.marks == c.marks && d.epochs == c.epochs
      && (if c.Stored(now).None? then d == c
          else
            && d.bucket.Some? && d.bucket.value.expiresAt == c.bucket.value.expiresAt
            && d.bucket.value.value.(bal := c.bucket.value.value.bal) == c.bucket.value.value
            && (later < c.bucket.value.expiresAt ==>
                  && d.Reading(cfg, later).tokens == Min(cfg.maxTokens, c.Reading(cfg, later).tokens + cost)
                  && d.Reading(cfg, later).lastUpdate == c.Reading(cfg, later).lastUpdate))
  {
    if c.Stored(now).Some? && later < c.bucket.value.expiresAt {
      RefillGrows(c.bucket.value.value.bal, cfg, later);
      RefillGrows(Credit(c, cost, cfg.maxTokens, now).bucket.value.value.bal, cfg, later);
    }
  }
}
