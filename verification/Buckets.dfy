/**
 * What one token-bucket operation does to one bucket and the claim marks kept beside
 * it: the values the backend stores, each under a key that expires.
 */
module Buckets {
  import opened Numbers
  import opened TokenBucket
  import opened Settlement

  /** The lifetime an admission gives its keys unless told otherwise, in seconds. */
  const DAY_SECONDS: int := 86400

  datatype Entry<+T> = Entry(value: T, expiresAt: int)

  /** An expired key reads as an absent one. */
  function Live<K, T>(m: map<K, Entry<T>>, key: K, now: int): Option<T> {
    if key in m && now < m[key].expiresAt then Some(m[key].value) else None
  }

  /** `epoch` is the incarnation of the bucket's hash, taken by its first mark. */
  datatype Bucket = Bucket(bal: Balance, forgiven: real, generation: int, epoch: Option<nat>)

  /** A claim's cost with its bucket's counters at that moment; a settlement reads them back. */
  datatype Mark = Mark(
    claimed: real,
    overflow: real,
    fills: nat,
    generation: int,
    epoch: Option<nat>,
    forgiven: real)

  datatype ClaimMark = ClaimMark(id: string, ttlSeconds: int)

  /** One bucket, its marks by id, and the backend's counter of epochs handed out. */
  datatype Cell = Cell(bucket: Option<Entry<Bucket>>, marks: map<string, Entry<Mark>>, epochs: nat)
  {
    function Stored(now: int): Option<Bucket> {
      if bucket.Some? && now < bucket.value.expiresAt then Some(bucket.value.value) else None
    }

    /** The balance refilled to `now`; an absent bucket reads as full. */
    function Reading(cfg: Config, now: int): Balance {
      var b := Stored(now);
      Refill(if b.Some? then b.value.bal else Fresh(cfg, now), cfg, now)
    }

    /** Writes the balance and re-arms the key; the other fields of the hash stay. */
    function Write(bal: Balance, ttlSeconds: int, now: int): Cell {
      var b := Stored(now);
      var hash := if b.Some? then b.value.(bal := bal) else Bucket(bal, 0.0, 0, None);
      this.(bucket := Some(Entry(hash, now + ttlSeconds * 1000)))
    }

    function WithBucket(b: Bucket): Cell
      requires bucket.Some?
    {
      this.(bucket := Some(bucket.value.(value := b)))
    }
  }

  /** The mark of a claim just written, whose counters are the post-claim ones. */
  function WriteMark(c: Cell, mark: ClaimMark, cost: real, bal: Balance, now: int): Cell
    requires c.bucket.Some?
  {
    var b := c.bucket.value.value;
    var epochs := if b.epoch.None? then c.epochs + 1 else c.epochs;
    var stamped := if b.epoch.None? then b.(epoch := Some(epochs)) else b;
    var m := Mark(cost, bal.overflow, bal.fills, stamped.generation, stamped.epoch, stamped.forgiven);
    c.WithBucket(stamped).(
      marks := c.marks[mark.id := Entry(m, now + mark.ttlSeconds * 1000)],
      epochs := epochs)
  }

  /** The spend of an admitted claim, against the balance `bal` refilled to `now`. */
  function Commit(c: Cell, bal: Balance, cost: real, cfg: Config, mark: Option<ClaimMark>, ttl: int, now: int): Cell
    requires cfg.Usable()
  {
    var spent := c.Write(bal.(tokens := bal.tokens - cost), BucketTtl(ttl, cfg), now);
    if mark.Some? then WriteMark(spent, mark.value, cost, bal, now) else spent
  }

  datatype AcquireResult =
    | Acquired(remaining: real)
    | Declined(waitTime: int, remaining: real)
    | Unusable(error: BudgetError)

  function Acquire(c: Cell, cost: real, cfg: Config, mark: Option<ClaimMark>, ttl: int, now: int): (Cell, AcquireResult)
  {
    var error := UnusableBudget(cost, cfg);
    if error.Some? then (c, Unusable(error.value))
    else
      var bal := c.Reading(cfg, now);
      if CoversCost(bal.tokens, cost, cfg.maxTokens) then
        (Commit(c, bal, cost, cfg, mark, ttl, now), Acquired(bal.tokens - cost))
      else
        (c.Write(bal, BucketTtl(ttl, cfg), now), Declined(WaitTime(bal, cfg, cost, now), bal.tokens))
  }

  datatype SettleResult = SettleResult(settled: bool, applied: real, unapplied: real)

  function SettleInputOf(b: Bucket, bal: Balance, m: Mark, actual: real, cfg: Config, maxDebt: real): SettleInput {
    SettleInput(bal.tokens, cfg.maxTokens, maxDebt, actual, m.claimed, bal.overflow, m.overflow,
      b.forgiven, m.forgiven, bal.fills, m.fills, b.generation, m.generation, b.epoch, m.epoch)
  }

  /** What settling `m` against the live bucket `b` decides at `now`. */
  function Decide(b: Bucket, m: Mark, actual: real, cfg: Config, maxDebt: real, now: int): SettleOutcome {
    SettleAmount(SettleInputOf(b, Refill(b.bal, cfg, now), m, actual, cfg, maxDebt))
  }

  function Settle(c: Cell, markId: string, actual: real, cfg: Config, maxDebt: real, now: int): (Cell, SettleResult)
  {
    var mark := Live(c.marks, markId, now);
    if mark.None? || actual < 0.0 || UnusableBudget(0.0, cfg).Some? then (c, SettleResult(false, 0.0, 0.0))
    else
      var consumed := c.(marks := c.marks - {markId});
      var b := c.Stored(now);
      if b.None? then (consumed, SettleResult(true, 0.0, 0.0))
      else
        var bal := c.Reading(cfg, now);
        var o := Decide(b.value, mark.value, actual, cfg, maxDebt, now);
        var written := consumed.Write(bal.(tokens := bal.tokens - o.applied), BucketTtl(DAY_SECONDS, cfg), now);
        (written.WithBucket(written.bucket.value.value.(forgiven := o.forgiven)),
         SettleResult(true, o.applied, o.unapplied))
  }

  /** Gives a cost back without passing the ceiling, and never brings an absent bucket into being. */
  function Credit(c: Cell, cost: real, maxTokens: real, now: int): Cell {
    var b := c.Stored(now);
    if cost < 0.0 || b.None? then c
    else c.WithBucket(b.value.(bal := b.value.bal.(tokens := Min(maxTokens, b.value.bal.tokens + cost))))
  }

  function BumpGeneration(c: Cell): Cell
    requires c.bucket.Some?
  {
    var b := c.bucket.value.value;
    c.WithBucket(b.(generation := b.generation + 1))
  }

  /** What a rate limit response does: the least of zero and the stored balance, no refill credited first. */
  function Empty(c: Cell, cfg: Config, now: int): Cell {
    var b := c.Stored(now);
    var tokens := if b.Some? then b.value.bal.tokens else 0.0;
    var overflow := if b.Some? then b.value.bal.overflow else 0.0;
    var fills := if b.Some? then b.value.bal.fills else 0;
    var ttl := if UnusableBudget(0.0, cfg).Some? then DAY_SECONDS else BucketTtl(DAY_SECONDS, cfg);
    BumpGeneration(c.Write(Balance(Min(tokens, 0.0), now, overflow, fills), ttl, now))
  }

  function Reset(c: Cell, maxTokens: real, now: int): Cell {
    var b := c.Stored(now);
    var overflow := if b.Some? then b.value.bal.overflow else 0.0;
    var fills := if b.Some? then b.value.bal.fills else 0;
    BumpGeneration(c.Write(Balance(maxTokens, now, overflow, fills), DAY_SECONDS, now))
  }

  /** Moves the expiry of a live mark, and does nothing else. */
  function TouchMark(c: Cell, markId: string, ttlSeconds: int, now: int): Cell {
    var m := Live(c.marks, markId, now);
    if m.None? then c
    else c.(marks := c.marks[markId := Entry(m.value, now + ttlSeconds * 1000)])
  }

  // --------------------------------------------------------------- whole runs

  /** `Mint` is another bucket of the same backend taking an epoch. */
  datatype Step =
    | AcquireStep(cost: real, cfg: Config, mark: Option<ClaimMark>, ttl: int, now: int)
    | SettleStep(markId: string, actual: real, cfg: Config, maxDebt: real, now: int)
    | CreditStep(cost: real, maxTokens: real, now: int)
    | EmptyStep(cfg: Config, now: int)
    | ResetStep(maxTokens: real, now: int)
    | TouchMarkStep(markId: string, ttlSeconds: int, now: int)
    | MintStep(now: int)

  function Apply(c: Cell, step: Step): Cell {
    match step
    case AcquireStep(cost, cfg, mark, ttl, now) => Acquire(c, cost, cfg, mark, ttl, now).0
    case SettleStep(markId, actual, cfg, maxDebt, now) => Settle(c, markId, actual, cfg, maxDebt, now).0
    case CreditStep(cost, maxTokens, now) => Credit(c, cost, maxTokens, now)
    case EmptyStep(cfg, now) => Empty(c, cfg, now)
    case ResetStep(maxTokens, now) => Reset(c, maxTokens, now)
    case TouchMarkStep(markId, ttlSeconds, now) => TouchMark(c, markId, ttlSeconds, now)
    case MintStep(_) => c.(epochs := c.epochs + 1)
  }

  function RunSteps(c: Cell, steps: seq<Step>): Cell
    decreases |steps|
  {
    if steps == [] then c else RunSteps(Apply(c, steps[0]), steps[1..])
  }

  const EMPTY_CELL: Cell := Cell(None, map[], 0)
}
