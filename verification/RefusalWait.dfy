/**
 * What a refused claim of several budgets is told to wait for, and that the wait is
 * neither too long nor too short.
 */
module RefusalWait {
  import opened Numbers
  import opened TokenBucket
  import opened Buckets
  import opened Slots
  import opened MultiLimit
  import opened AllOrNothing

  /** A bucket of the list that cannot cover its cost. */
  predicate Declines(s: Store, spec: Spec, now: int) {
    spec.BucketSpec? && !CoversCost(s.CellOf(spec.key).Reading(spec.cfg, now).tokens, spec.cost, spec.cfg.maxTokens)
  }

  /** The wait its claim alone would be told. */
  function WaitOf(s: Store, spec: Spec, now: int): int
    requires spec.BucketSpec? && UnusableSpec(spec).None?
  {
    WaitTime(s.CellOf(spec.key).Reading(spec.cfg, now), spec.cfg, spec.cost, now)
  }

  /** The longest wait of the buckets that declined, blamed on the one that asks for it. */
  ghost predicate LongestWait(s: Store, specs: seq<Spec>, now: int, waitTime: int, blockedBy: string)
    requires Usable(specs)
  {
    && (exists i :: 0 <= i < |specs| && Declines(s, specs[i], now) && specs[i].key == blockedBy && WaitOf(s, specs[i], now) == waitTime)
    && forall j :: 0 <= j < |specs| && Declines(s, specs[j], now) ==> WaitOf(s, specs[j], now) <= waitTime
  }

  ghost predicate NoneDeclines(s: Store, specs: seq<Spec>, now: int) {
    forall i :: 0 <= i < |specs| ==> !Declines(s, specs[i], now)
  }

  /** The first ledger of the list that is full. */
  ghost predicate FirstFull(s: Store, specs: seq<Spec>, now: int, key: string) {
    exists i :: 0 <= i < |specs| && specs[i].SlotSpec? && specs[i].key == key && !AdmitsAlone(s, specs[i], now)
      && forall j :: 0 <= j < i ==> AdmitsAlone(s, specs[j], now)
  }

  ghost predicate Reports(s: Store, specs: seq<Spec>, now: int, p: Plan)
    requires Usable(specs)
  {
    && (p.waitTime.None? <==> NoneDeclines(s, specs, now))
    && (p.waitTime.Some? ==> p.blockedBy.Some? && !p.acquired && LongestWait(s, specs, now, p.waitTime.value, p.blockedBy.value))
    && (p.acquired ==> p.blockedBy.None?)
    && (p.waitTime.None? && !p.acquired ==> p.blockedBy.Some? && FirstFull(s, specs, now, p.blockedBy.value))
  }

  lemma DeclinesSplit(s: Store, specs: seq<Spec>, pre: seq<Spec>, last: Spec, now: int)
    requires Split(specs, pre, last) && Usable(specs) && Usable(pre) && UnusableSpec(last).None?
    ensures NoneDeclines(s, specs, now) <==> NoneDeclines(s, pre, now) && !Declines(s, last, now)
    ensures forall w, key ::
      LongestWait(s, pre, now, w, key) && (Declines(s, last, now) ==> WaitOf(s, last, now) <= w) ==>
      LongestWait(s, specs, now, w, key)
    ensures forall key :: FirstFull(s, pre, now, key) ==> FirstFull(s, specs, now, key)
  {
    assert specs[|pre|] == last && forall i :: 0 <= i < |pre| ==> pre[i] == specs[i];
    forall w, key | LongestWait(s, pre, now, w, key) && (Declines(s, last, now) ==> WaitOf(s, last, now) <= w)
      ensures LongestWait(s, specs, now, w, key)
    {
      var i :| 0 <= i < |pre| && Declines(s, pre[i], now) && pre[i].key == key && WaitOf(s, pre[i], now) == w;
      assert Declines(s, specs[i], now) && specs[i].key == key && WaitOf(s, specs[i], now) == w;
    }
    forall key | FirstFull(s, pre, now, key) ensures FirstFull(s, specs, now, key) {
      var i :| 0 <= i < |pre| && pre[i].SlotSpec? && pre[i].key == key && !AdmitsAlone(s, pre[i], now)
        && forall j :: 0 <= j < i ==> AdmitsAlone(s, pre[j], now);
      assert specs[i].SlotSpec? && forall j :: 0 <= j < i ==> specs[j] == pre[j];
    }
  }

  lemma BucketReports(s: Store, specs: seq<Spec>, pre: seq<Spec>, last: Spec, ttl: int, now: int, p: Plan)
    requires Split(specs, pre, last) && Usable(specs) && Usable(pre) && last.BucketSpec? && UnusableSpec(last).None?
    requires PlanIs(s, pre, ttl, now, p) && Reports(s, pre, now, p)
    ensures Reports(s, specs, now, PlanSpec(p, last, now))
  {
    DeclinesSplit(s, specs, pre, last, now);
    assert p.store.CellOf(last.key) == s.CellOf(last.key);
    var q := PlanSpec(p, last, now);
    if Declines(s, last, now) && (p.waitTime.None? || WaitOf(s, last, now) > p.waitTime.value) {
      assert specs[|pre|] == last && forall j :: 0 <= j < |pre| ==> specs[j] == pre[j];
      assert LongestWait(s, specs, now, WaitOf(s, last, now), last.key);
    }
  }

  lemma SlotReports(s: Store, specs: seq<Spec>, pre: seq<Spec>, last: Spec, ttl: int, now: int, p: Plan)
    requires Split(specs, pre, last) && Distinct(specs) && Usable(specs) && Usable(pre) && last.SlotSpec? && UnusableSpec(last).None?
    requires PlanIs(s, pre, ttl, now, p) && Reports(s, pre, now, p)
    ensures Reports(s, specs, now, PlanSpec(p, last, now))
  {
    DeclinesSplit(s, specs, pre, last, now);
    LastIsNew(specs, pre, last);
    assert p.store.LedgerOf(last.key) == s.LedgerOf(last.key);
    SlotPlanned(p, last, now);
    SlotBlame(p, last, now);
    if p.acquired && !AdmitsAlone(s, last, now) {
      assert specs[|pre|] == last && forall j :: 0 <= j < |pre| ==> specs[j] == pre[j];
      assert FirstFull(s, specs, now, last.key);
    }
  }

  lemma {:induction false} PlanReports(s: Store, specs: seq<Spec>, ttl: int, now: int)
    requires Distinct(specs) && Usable(specs)
    ensures Reports(s, specs, now, PlanAll(s, specs, now))
    decreases |specs|
  {
    if specs != [] {
      var pre, last := specs[..|specs| - 1], specs[|specs| - 1];
      assert Split(specs, pre, last);
      LastIsNew(specs, pre, last);
      PlanOfDistinct(s, pre, ttl, now);
      PlanReports(s, pre, ttl, now);
      if last.BucketSpec? {
        BucketReports(s, specs, pre, last, ttl, now, PlanAll(s, pre, now));
      } else {
        SlotReports(s, specs, pre, last, ttl, now, PlanAll(s, pre, now));
      }
    }
  }

  /**
   * What a refused list is told is the longest wait any bucket asks for and blames that bucket; only
   * when every bucket could pay does it blame a ledger, the first one full, and reports
   * no wait.
   */
  lemma RefusalReport(s: Store, specs: seq<Spec>, ttl: int, now: int)
    requires Distinct(specs) && Usable(specs) && !AllAdmit(s, specs, now)
    ensures var result := AcquireMultiLimit(s, specs, ttl, now).1;
      && result.Refused? && result.blockedBy.Some?
      && if NoneDeclines(s, specs, now)
         then result.waitTime == 0 && FirstFull(s, specs, now, result.blockedBy.value)
         else LongestWait(s, specs, now, result.waitTime, result.blockedBy.value)
  {
    PlanOfDistinct(s, specs, ttl, now);
    PlanReports(s, specs, ttl, now);
    PlansAreUsable(s, specs, now);
  }

  // --------------------------------------------------------- the wait is exact

  /** A cost a bucket of this configuration can come to hold. */
  predicate Holdable(cost: real, cfg: Config) {
    cfg.Usable() && cfg.interval > 0 && 0.0 <= cost <= cfg.maxTokens
  }

  /** A bucket whose refill was persisted, read again later: refilled on, or expired and full. */
  lemma ReadLater(c: Cell, cfg: Config, ttl: int, now: int, t: int)
    requires cfg.Usable() && now <= t
    ensures var bal, d := c.Reading(cfg, now), c.Write(c.Reading(cfg, now), BucketTtl(ttl, cfg), now);
      d.Reading(cfg, t) == if t < now + BucketTtl(ttl, cfg) * 1000 then Refill(bal, cfg, t) else Refill(Fresh(cfg, t), cfg, t)
    ensures Refill(Fresh(cfg, t), cfg, t).tokens == cfg.maxTokens
  {
  }

  /** What a declined bucket reads later, its refill persisted by the decline. */
  function LaterTokens(c: Cell, cfg: Config, ttl: int, now: int, t: int): real
    requires cfg.Usable()
  {
    c.Write(c.Reading(cfg, now), BucketTtl(ttl, cfg), now).Reading(cfg, t).tokens
  }

  /** When the key of a bucket written at `now` expires. */
  function KeyEnd(cfg: Config, ttl: int, now: int): int
    requires cfg.Usable()
  {
    now + BucketTtl(ttl, cfg) * 1000
  }

  /** Any declined bucket holds its cost exactly once its wait has been served or its key is gone. */
  lemma DeclinedUntil(c: Cell, cost: real, cfg: Config, ttl: int, now: int, t: int)
    requires Holdable(cost, cfg) && now <= t
    requires !CoversCost(c.Reading(cfg, now).tokens, cost, cfg.maxTokens)
    ensures LaterTokens(c, cfg, ttl, now, t) >= cost <==>
      t >= now + WaitTime(c.Reading(cfg, now), cfg, cost, now) || t >= KeyEnd(cfg, ttl, now)
  {
    var origin := if c.Stored(now).Some? then c.Stored(now).value.bal else Fresh(cfg, now);
    var bal := c.Reading(cfg, now);
    RefillSettles(origin, cfg, now);
    assert bal.tokens < cost by {
      assert Min(cfg.maxTokens, cost) * BALANCE_TOLERANCE >= 0.0;
    }
    ReadLater(c, cfg, ttl, now, t);
    WaitIsExact(bal, cfg, cost, now, t);
  }

  /** So the wait it is told is exact, at every later time, if and only if its key lives that long. */
  lemma WaitExactIfKeyLives(c: Cell, cost: real, cfg: Config, ttl: int, now: int)
    requires Holdable(cost, cfg) && ttl > 0
    requires !CoversCost(c.Reading(cfg, now).tokens, cost, cfg.maxTokens)
    ensures var wait := WaitTime(c.Reading(cfg, now), cfg, cost, now);
      (forall t :: now <= t ==> (LaterTokens(c, cfg, ttl, now, t) >= cost <==> t >= now + wait))
        <==> now + wait <= KeyEnd(cfg, ttl, now)
  {
    var wait := WaitTime(c.Reading(cfg, now), cfg, cost, now);
    forall t | now <= t
      ensures LaterTokens(c, cfg, ttl, now, t) >= cost <==> t >= now + wait || t >= KeyEnd(cfg, ttl, now)
    {
      DeclinedUntil(c, cost, cfg, ttl, now, t);
    }
    KeyEndsLater(cfg, ttl, now);
    if now + wait > KeyEnd(cfg, ttl, now) {
      assert LaterTokens(c, cfg, ttl, now, KeyEnd(cfg, ttl, now)) >= cost;
    }
  }

  lemma KeyEndsLater(cfg: Config, ttl: int, now: int)
    requires cfg.Usable() && ttl > 0
    ensures KeyEnd(cfg, ttl, now) > now
  {
  }

  /** A bucket of a balance that is not negative, and of a storable lifetime, always keeps its key so long. */
  lemma UnindebtedKeyLives(c: Cell, cost: real, cfg: Config, ttl: int, now: int)
    requires Holdable(cost, cfg) && ttl > 0 && 0.0 <= c.Reading(cfg, now).tokens
    requires CeilDiv(Ceil(cfg.maxTokens / cfg.tokensToAdd) * cfg.interval, 1000) <= REDIS_MAX_TTL_SECONDS
    requires c.Stored(now).Some? ==> c.Stored(now).value.bal.lastUpdate <= now
    requires !CoversCost(c.Reading(cfg, now).tokens, cost, cfg.maxTokens)
    ensures now + WaitTime(c.Reading(cfg, now), cfg, cost, now) <= KeyEnd(cfg, ttl, now)
  {
    var origin := if c.Stored(now).Some? then c.Stored(now).value.bal else Fresh(cfg, now);
    RefillIsCurrent(origin, cfg, now);
    assert c.Reading(cfg, now).tokens < cost by {
      assert Min(cfg.maxTokens, cost) * BALANCE_TOLERANCE >= 0.0;
    }
    WaitWithinTtl(c.Reading(cfg, now), cfg, cost, now, ttl);
  }

  /** A claim of the full bucket, marked. */
  function Drained(cfg: Config): Cell {
    Apply(EMPTY_CELL, AcquireStep(cfg.maxTokens, cfg, Some(ClaimMark("a", 60)), DAY_SECONDS, 0))
  }

  /** It is settled at once at `debt` more, which the debt limit allows. */
  function Indebted(cfg: Config, debt: real): Cell {
    Apply(Drained(cfg), SettleStep("a", cfg.maxTokens + debt, cfg, debt, 0))
  }

  lemma DrainedIsEmpty(cfg: Config)
    requires cfg.Usable()
    ensures var c, ttl := Drained(cfg), BucketTtl(DAY_SECONDS, cfg);
      && ttl > 0
      && c.bucket == Some(Entry(Bucket(Balance(0.0, 0, 0.0, 0), 0.0, 0, Some(1)), ttl * 1000))
      && c.marks == map["a" := Entry(Mark(cfg.maxTokens, 0.0, 0, 0, Some(1), 0.0), 60000)]
  {
    var bal := EMPTY_CELL.Reading(cfg, 0);
    assert bal == Balance(cfg.maxTokens, 0, 0.0, 0);
    assert CoversCost(cfg.maxTokens, cfg.maxTokens, cfg.maxTokens);
  }

  lemma IndebtedOwes(cfg: Config, debt: real)
    requires cfg.Usable() && debt >= 0.0
    ensures Indebted(cfg, debt).Reading(cfg, 0) == Balance(-debt, 0, 0.0, 0)
  {
    var c := Drained(cfg);
    DrainedIsEmpty(cfg);
    var b, m := c.bucket.value.value, c.marks["a"].value;
    assert Live(c.marks, "a", 0) == Some(m) && c.Stored(0) == Some(b) && Refill(b.bal, cfg, 0) == b.bal;
    assert Decide(b, m, cfg.maxTokens + debt, cfg, debt, 0).applied == debt;
    assert Indebted(cfg, debt).bucket.Some? && Indebted(cfg, debt).bucket.value.value.bal == Balance(-debt, 0, 0.0, 0);
  }

  /** More than `n` intervals' refill takes at least `n` intervals. */
  lemma RefillTakesTime(missing: real, cfg: Config, n: nat)
    requires cfg.Usable() && cfg.interval > 0 && missing >= n as real * cfg.tokensToAdd
    ensures Ceil(missing / cfg.tokensToAdd) * cfg.interval >= n
  {
    var q := Ceil(missing / cfg.tokensToAdd);
    assert n as real * cfg.tokensToAdd == (n - 1) as real * cfg.tokensToAdd + cfg.tokensToAdd;
    Credited(n - 1, missing, cfg.tokensToAdd);
    assert q >= n;
    Times(n, q, cfg.interval);
    Times(1, cfg.interval, n);
  }

  lemma FullAtKeyEnd(c: Cell, cost: real, cfg: Config, ttl: int)
    requires Holdable(cost, cfg) && ttl > 0
    ensures LaterTokens(c, cfg, ttl, 0, KeyEnd(cfg, ttl, 0)) >= cost
  {
    KeyEndsLater(cfg, ttl, 0);
    ReadLater(c, cfg, ttl, 0, KeyEnd(cfg, ttl, 0));
  }

  /** The debt that as many intervals refill as the key has milliseconds to live, and one more. */
  function DebtBeyond(cfg: Config, ttl: int): real
    requires cfg.Usable()
  {
    (KeyEnd(cfg, ttl, 0) + 1) as real * cfg.tokensToAdd
  }

  lemma DebtWaits(bal: Balance, cost: real, cfg: Config, ttl: int)
    requires Holdable(cost, cfg) && ttl > 0 && bal.tokens == -DebtBeyond(cfg, ttl) && bal.lastUpdate == 0
    ensures WaitTime(bal, cfg, cost, 0) > KeyEnd(cfg, ttl, 0)
  {
    KeyEndsLater(cfg, ttl, 0);
    RefillTakesTime(cost - bal.tokens, cfg, KeyEnd(cfg, ttl, 0) + 1);
  }

  /** Every bucket can come to a debt so large that it holds any cost sooner than it says. */
  lemma IndebtedWaitsTooLong(cost: real, cfg: Config, ttl: int)
    requires Holdable(cost, cfg) && ttl > 0
    ensures var c := Indebted(cfg, DebtBeyond(cfg, ttl));
      && WaitTime(c.Reading(cfg, 0), cfg, cost, 0) > KeyEnd(cfg, ttl, 0)
      && LaterTokens(c, cfg, ttl, 0, KeyEnd(cfg, ttl, 0)) >= cost
  {
    var debt := DebtBeyond(cfg, ttl);
    KeyEndsLater(cfg, ttl, 0);
    Scale(0, KeyEnd(cfg, ttl, 0) + 1, cfg.tokensToAdd);
    IndebtedOwes(cfg, debt);
    DebtWaits(Indebted(cfg, debt).Reading(cfg, 0), cost, cfg, ttl);
    FullAtKeyEnd(Indebted(cfg, debt), cost, cfg, ttl);
  }

  /** A bucket that covers a cost goes on covering it while nobody else claims. */
  lemma CoversOn(c: Cell, cost: real, cfg: Config, ttl: int, now: int, t: int)
    requires Holdable(cost, cfg) && now <= t
    requires CoversCost(c.Reading(cfg, now).tokens, cost, cfg.maxTokens)
    ensures CoversCost(LaterTokens(c, cfg, ttl, now, t), cost, cfg.maxTokens)
  {
    var origin := if c.Stored(now).Some? then c.Stored(now).value.bal else Fresh(cfg, now);
    ReadLater(c, cfg, ttl, now, t);
    RefillGrows(origin, cfg, now);
    RefillGrows(c.Reading(cfg, now), cfg, t);
    assert Min(cfg.maxTokens, cost) * BALANCE_TOLERANCE >= 0.0;
  }

  /** What a refused list's bucket reads at a later retry, with no other claim in between. */
  function RetryTokens(after: Store, spec: Spec, t: int): real
    requires spec.BucketSpec?
  {
    after.CellOf(spec.key).Reading(spec.cfg, t).tokens
  }

  ghost predicate AllHoldable(specs: seq<Spec>) {
    forall i :: 0 <= i < |specs| && specs[i].BucketSpec? ==> Holdable(specs[i].cost, specs[i].cfg)
  }

  /** Every bucket of the list covers its cost when it is asked again. */
  ghost predicate AllCover(after: Store, specs: seq<Spec>, t: int) {
    forall i :: 0 <= i < |specs| && specs[i].BucketSpec? ==>
      CoversCost(RetryTokens(after, specs[i], t), specs[i].cost, specs[i].cfg.maxTokens)
  }

  /** Every bucket that declined holds its whole cost. */
  ghost predicate AllHold(s: Store, after: Store, specs: seq<Spec>, now: int, t: int) {
    forall i :: 0 <= i < |specs| && Declines(s, specs[i], now) ==> RetryTokens(after, specs[i], t) >= specs[i].cost
  }

  /**
   * Retrying once the reported wait is served finds every bucket of the list covering its
   * cost, whatever their debts. At any earlier instant the bucket that was blamed holds
   * less than its cost, until its key expires.
   */
  lemma RefusalWaitIsExact(s: Store, specs: seq<Spec>, ttl: int, now: int, t: int)
    requires Distinct(specs) && Usable(specs) && AllHoldable(specs) && now <= t && !NoneDeclines(s, specs, now)
    ensures var (after, result) := AcquireMultiLimit(s, specs, ttl, now);
      && result.Refused? && result.blockedBy.Some?
      && (t >= now + result.waitTime ==> AllCover(after, specs, t) && AllHold(s, after, specs, now, t))
      && (t < now + result.waitTime ==>
            exists i :: 0 <= i < |specs| && Declines(s, specs[i], now) && specs[i].key == result.blockedBy.value
              && (RetryTokens(after, specs[i], t) < specs[i].cost <==> t < KeyEnd(specs[i].cfg, ttl, now)))
  {
    var (after, result) := AcquireMultiLimit(s, specs, ttl, now);
    DeclineRefuses(s, specs, now);
    AcquiresAllOrNone(s, specs, ttl, now);
    RefusalReport(s, specs, ttl, now);
    forall i | 0 <= i < |specs| && specs[i].BucketSpec? ensures RetryReads(s, after, specs[i], ttl, now, t) {
      RetryIsRead(s, after, specs[i], ttl, now, t);
    }
  }

  /**
   * So the reported wait is the shortest that will do if and only if some bucket which
   * asks for it keeps its key that long.
   */
  lemma RefusalWaitIsShortestExactly(s: Store, specs: seq<Spec>, ttl: int, now: int)
    requires Distinct(specs) && Usable(specs) && AllHoldable(specs) && ttl > 0 && !NoneDeclines(s, specs, now)
    ensures var (after, result) := AcquireMultiLimit(s, specs, ttl, now);
      result.Refused?
      && ((forall t :: now <= t < now + result.waitTime ==> !AllHold(s, after, specs, now, t))
          <==> exists i :: 0 <= i < |specs| && Longest(s, specs, i, ttl, now, result.waitTime))
  {
    var (after, result) := AcquireMultiLimit(s, specs, ttl, now);
    DeclineRefuses(s, specs, now);
    AcquiresAllOrNone(s, specs, ttl, now);
    RefusalReport(s, specs, ttl, now);
    forall t, i | now <= t && 0 <= i < |specs| && specs[i].BucketSpec? ensures RetryReads(s, after, specs[i], ttl, now, t) {
      RetryIsRead(s, after, specs[i], ttl, now, t);
    }
    ShortestExactly(s, after, specs, ttl, now, result.waitTime, result.blockedBy.value);
  }

  /** The bucket asks for the whole of the wait, and its key lives to the end of it. */
  ghost predicate Longest(s: Store, specs: seq<Spec>, i: nat, ttl: int, now: int, wait: int)
    requires Usable(specs) && i < |specs|
  {
    Declines(s, specs[i], now) && WaitOf(s, specs[i], now) == wait && now + wait <= KeyEnd(specs[i].cfg, ttl, now)
  }

  lemma ShortestExactly(s: Store, after: Store, specs: seq<Spec>, ttl: int, now: int, wait: int, blockedBy: string)
    requires Usable(specs) && ttl > 0 && LongestWait(s, specs, now, wait, blockedBy)
    requires forall t, i :: now <= t && 0 <= i < |specs| && specs[i].BucketSpec? ==> RetryReads(s, after, specs[i], ttl, now, t)
    ensures (forall t :: now <= t < now + wait ==> !AllHold(s, after, specs, now, t))
      <==> exists i :: 0 <= i < |specs| && Longest(s, specs, i, ttl, now, wait)
  {
    if i :| 0 <= i < |specs| && Longest(s, specs, i, ttl, now, wait) {
      forall t | now <= t < now + wait ensures !AllHold(s, after, specs, now, t) {
        assert RetryReads(s, after, specs[i], ttl, now, t);
      }
    } else {
      var b :| 0 <= b < |specs| && Declines(s, specs[b], now) && WaitOf(s, specs[b], now) == wait;
      assert !Longest(s, specs, b, ttl, now, wait);
      KeyEndsLater(specs[b].cfg, ttl, now);
      var t := now + wait - 1;
      forall i | 0 <= i < |specs| && Declines(s, specs[i], now) ensures RetryTokens(after, specs[i], t) >= specs[i].cost {
        assert RetryReads(s, after, specs[i], ttl, now, t) && !Longest(s, specs, i, ttl, now, wait);
      }
      assert AllHold(s, after, specs, now, t);
    }
  }

  lemma DeclineRefuses(s: Store, specs: seq<Spec>, now: int)
    requires Usable(specs) && !NoneDeclines(s, specs, now)
    ensures !AllAdmit(s, specs, now)
  {
    var i :| 0 <= i < |specs| && Declines(s, specs[i], now);
    assert !AdmitsAlone(s, specs[i], now);
  }

  /** What one bucket of a refused list reads at `t`. */
  ghost predicate RetryReads(s: Store, after: Store, spec: Spec, ttl: int, now: int, t: int)
    requires spec.BucketSpec? && UnusableSpec(spec).None?
  {
    if Declines(s, spec, now) then
      RetryTokens(after, spec, t) >= spec.cost <==> t >= now + WaitOf(s, spec, now) || t >= KeyEnd(spec.cfg, ttl, now)
    else CoversCost(RetryTokens(after, spec, t), spec.cost, spec.cfg.maxTokens)
  }

  lemma RetryIsRead(s: Store, after: Store, spec: Spec, ttl: int, now: int, t: int)
    requires spec.BucketSpec? && UnusableSpec(spec).None? && now <= t
    requires Holdable(spec.cost, spec.cfg) && BucketLeft(s, after, spec, false, ttl, now)
    ensures RetryReads(s, after, spec, ttl, now, t)
  {
    var c := s.CellOf(spec.key);
    if Declines(s, spec, now) {
      DeclinedUntil(c, spec.cost, spec.cfg, ttl, now, t);
    } else {
      CoversOn(c, spec.cost, spec.cfg, ttl, now, t);
    }
  }
}
