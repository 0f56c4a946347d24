/**
 * The in-process backend: one object whose tables its methods change in place. Each
 * method is proved to do to the whole store what the functions of the other modules
 * say, so everything proved of those holds of it.
 */
module MemoryBackend {
  import opened Numbers
  import opened TokenBucket
  import opened Settlement
  import opened Buckets
  import opened Slots
  import opened Freeze
  import opened MultiLimit
  import opened MemberOrder
  import opened QueueEntry
  import opened RequestQueue
  import opened QueueBackend

  datatype SettleSpec = SettleSpec(key: string, markId: string, actual: real, cfg: Config, maxDebt: real)

  /** One settlement; one that settles nothing writes nothing. */
  function SettleOne(s: Store, spec: SettleSpec, now: int): (Store, SettleResult) {
    var (c, result) := Settle(s.CellOf(spec.key), spec.markId, spec.actual, spec.cfg, spec.maxDebt, now);
    (if result.settled then s.PutCell(spec.key, c) else s, result)
  }

  function SettleAll(s: Store, specs: seq<SettleSpec>, now: int): (Store, seq<SettleResult>)
    decreases |specs|
  {
    if specs == [] then (s, [])
    else
      var (t, results) := SettleAll(s, specs[..|specs| - 1], now);
      var (u, result) := SettleOne(t, specs[|specs| - 1], now);
      (u, results + [result])
  }

  /** The answers are in the order of the list, each to the store as the ones before have left it. */
  lemma {:induction false} SettlesInOrder(s: Store, specs: seq<SettleSpec>, i: nat, now: int)
    requires i < |specs|
    ensures var results := SettleAll(s, specs, now).1;
      |results| == |specs| && results[i] == SettleOne(SettleAll(s, specs[..i], now).0, specs[i], now).1
    decreases |specs|
  {
    var pre := specs[..|specs| - 1];
    AnswersEach(s, pre, now);
    if i < |pre| {
      SettlesInOrder(s, pre, i, now);
      assert pre[..i] == specs[..i];
    }
  }

  lemma {:induction false} AnswersEach(s: Store, specs: seq<SettleSpec>, now: int)
    ensures |SettleAll(s, specs, now).1| == |specs|
    decreases |specs|
  {
    if specs != [] {
      AnswersEach(s, specs[..|specs| - 1], now);
    }
  }

  lemma {:induction false} MarkIsGone(s: Store, specs: seq<SettleSpec>, i: nat, now: int)
    requires i < |specs| && |SettleAll(s, specs, now).1| == |specs|
    requires SettleAll(s, specs, now).1[i].settled
    ensures specs[i].markId !in SettleAll(s, specs, now).0.CellOf(specs[i].key).marks
    decreases |specs|
  {
    var pre := specs[..|specs| - 1];
    AnswersEach(s, pre, now);
    if i < |pre| {
      MarkIsGone(s, pre, i, now);
    }
  }

  /** A mark named twice in a list is settled by the first of the two that settles anything, and not again. */
  lemma SettledOncePerList(s: Store, specs: seq<SettleSpec>, i: nat, j: nat, now: int)
    requires i < j < |specs| && specs[i].key == specs[j].key && specs[i].markId == specs[j].markId
    ensures var results := SettleAll(s, specs, now).1;
      |results| == |specs| && (results[i].settled ==> results[j] == SettleResult(false, 0.0, 0.0))
  {
    var before := specs[..j];
    SettlesInOrder(s, specs, i, now);
    SettlesInOrder(s, specs, j, now);
    SettlesInOrder(s, before, i, now);
    assert before[..i] == specs[..i];
    if SettleAll(s, specs, now).1[i].settled {
      MarkIsGone(s, before, i, now);
    }
  }

  function AcquireIn(s: Store, key: string, cost: real, cfg: Config, mark: Option<ClaimMark>, ttl: int,
        now: int): (Store, AcquireResult) {
    var (c, result) := Acquire(s.CellOf(key), cost, cfg, mark, ttl, now);
    (if result.Unusable? then s else s.PutCell(key, c), result)
  }

  ghost function AcquireSlotIn(s: Store, key: string, cost: real, id: string, cfg: SlotConfig, ttl: int,
        now: int): (Store, SlotResult) {
    var (l, result) := AcquireSlot(s.LedgerOf(key), cost, id, cfg, ttl, now);
    match result
    case SlotUnusable(_) => (s, result)
    case SlotFull(_) => (s.ReapLedger(key, now - cfg.requestTtl, now), result)
    case SlotAcquired(_) => (s.PutLedger(key, l), result)
  }

  /** A fast path admits only past an empty queue and with no freeze in its way. */
  predicate MayAdmit(s: Store, q: Queue, freezeKeys: seq<string>, now: int) {
    q.scores.At(now) == map[] && forall k :: k in freezeKeys ==> !BlocksAdmission(s.FreezeOf(k), now)
  }

  predicate BeingAdmitted(q: Queue, id: Text, now: int) {
    q.Find(id, now).Some? && q.Find(id, now).value.status == InProgress
  }

  /** Once one budget is unusable the rest are not looked at. */
  lemma {:induction false} PlanStops(s: Store, specs: seq<Spec>, n: nat, now: int)
    requires n <= |specs| && PlanAll(s, specs[..n], now).error.Some?
    ensures PlanAll(s, specs, now) == PlanAll(s, specs[..n], now)
    decreases |specs|
  {
    if n < |specs| {
      assert specs[..|specs| - 1][..n] == specs[..n];
      PlanStops(s, specs[..|specs| - 1], n, now);
    } else {
      assert specs[..n] == specs;
    }
  }

  /** What the check phase has made of the budgets so far. */
  datatype Tally = Tally(
    acquired: bool,
    waitTime: Option<int>,
    blockedBy: Option<string>,
    buckets: seq<PlannedBucket>,
    slots: seq<PlannedSlot>)
  {
    function In(s: Store): Plan { Plan(s, acquired, None, waitTime, blockedBy, buckets, slots) }
  }

  /** Removes members from what is alive of a ledger, empty keys not yet dropped. */
  function Cut(l: Ledger, ids: set<string>, now: int): Ledger {
    Ledger(
      if l.slots.Some? && now < l.slots.value.expiresAt
        then Some(l.slots.value.(value := l.slots.value.value - ids)) else l.slots,
      if l.costs.Some? && now < l.costs.value.expiresAt
        then Some(l.costs.value.(value := l.costs.value.value - ids)) else l.costs)
  }

  lemma CutNone(l: Ledger, now: int)
    ensures Cut(l, {}, now) == l
  {
    assert l.slots.Some? ==> l.slots.value.value - {} == l.slots.value.value;
    assert l.costs.Some? ==> l.costs.value.value - {} == l.costs.value.value;
  }

  lemma CutTwice(l: Ledger, a: set<string>, b: set<string>, now: int)
    ensures Cut(Cut(l, a, now), b, now) == Cut(l, a + b, now)
  {
    assert l.slots.Some? ==> l.slots.value.value - a - b == l.slots.value.value - (a + b);
    assert l.costs.Some? ==> l.costs.value.value - a - b == l.costs.value.value - (a + b);
  }

  class Backend {
    var cells: map<string, Kept>
    var epochs: nat
    var ledgers: map<string, Ledger>
    var freezes: map<string, FreezeCell>
    /** The requests waiting; an operation that looks at them does so in the same step. */
    const queue: RequestQueueStore

    constructor (queue: RequestQueueStore)
      ensures Contents() == Store(map[], 0, map[], map[]) && this.queue == queue
    {
      cells, epochs, ledgers, freezes := map[], 0, map[], map[];
      this.queue := queue;
    }

    ghost function Contents(): Store
      reads this
    {
      Store(cells, epochs, ledgers, freezes)
    }

    /** The live hash of a bucket. */
    function Hash(key: string, now: int): (b: Option<Bucket>)
      reads this
      ensures b == Contents().CellOf(key).Stored(now)
    {
      if key in cells && cells[key].bucket.Some? && now < cells[key].bucket.value.expiresAt
      then Some(cells[key].bucket.value.value) else None
    }

    // ---------------------------------------------------------- token bucket

    method Refill(key: string, cfg: Config, now: int) returns (state: Balance)
      ensures state == Contents().CellOf(key).Reading(cfg, now)
    {
      var tokens, lastUpdate, overflow, fills := cfg.maxTokens, now, 0.0, 0;
      var hash := Hash(key, now);
      if hash.Some? {
        tokens, lastUpdate := hash.value.bal.tokens, hash.value.bal.lastUpdate;
        overflow, fills := hash.value.bal.overflow, hash.value.bal.fills;
      }
      var belowCap := tokens < cfg.maxTokens;
      var elapsed := now - lastUpdate;
      if elapsed > 0 && cfg.interval > 0 {
        var intervalsElapsed := elapsed / cfg.interval;
        if intervalsElapsed > 0 {
          tokens := tokens + intervalsElapsed as real * cfg.tokensToAdd;
          lastUpdate := lastUpdate + intervalsElapsed * cfg.interval;
        }
      }
      if tokens > cfg.maxTokens {
        overflow := overflow + (tokens - cfg.maxTokens);
        tokens := cfg.maxTokens;
        fills := fills + 1;
      } else if belowCap && tokens >= cfg.maxTokens {
        fills := fills + 1;
      }
      state := Balance(tokens, lastUpdate, overflow, fills);
    }

    /** Given a `cfg`, the key's lifetime covers one refill from empty. */
    method WriteBucket(key: string, state: Balance, ttlSeconds: int, cfg: Option<Config>, now: int)
      requires cfg.Some? ==> cfg.value.tokensToAdd > 0.0
      modifies this`cells
      ensures Contents() == old(Contents()).PutCell(key, old(Contents()).CellOf(key).Write(state,
        if cfg.Some? then BucketTtl(ttlSeconds, cfg.value) else ttlSeconds, now))
    {
      var ttl := ttlSeconds;
      if cfg.Some? {
        ttl := BucketTtl(ttlSeconds, cfg.value);
      }
      var bucket := Bucket(state, 0.0, 0, None);
      var hash := Hash(key, now);
      if hash.Some? {
        bucket := hash.value.(bal := state);
      }
      var marks: map<string, Entry<Mark>> := map[];
      if key in cells {
        marks := cells[key].marks;
      }
      cells := cells[key := Kept(Some(Entry(bucket, now + ttl * 1000)), marks)];
    }

    /** Changes fields of a bucket's hash without re-arming its key. */
    method SetHash(key: string, b: Bucket)
      requires Contents().CellOf(key).bucket.Some?
      modifies this`cells
      ensures Contents() == old(Contents()).PutCell(key, old(Contents()).CellOf(key).WithBucket(b))
    {
      cells := cells[key := cells[key].(bucket := Some(cells[key].bucket.value.(value := b)))];
    }

    /** Records the counters of `state`, which the spend has just written. */
    method WriteMark(key: string, mark: ClaimMark, cost: real, state: Balance, now: int)
      requires Contents().CellOf(key).bucket.Some?
      modifies this`cells, this`epochs
      ensures Contents() == old(Contents()).PutCell(key, Buckets.WriteMark(old(Contents()).CellOf(key), mark, cost, state, now))
    {
      var bucket := cells[key].bucket.value.value;
      if bucket.epoch.None? {
        epochs := epochs + 1;
        bucket := bucket.(epoch := Some(epochs));
        SetHash(key, bucket);
      }
      var written := Mark(cost, state.overflow, state.fills, bucket.generation, bucket.epoch, bucket.forgiven);
      cells := cells[key := cells[key].(marks := cells[key].marks[mark.id := Entry(written, now + mark.ttlSeconds * 1000)])];
    }

    /** Spends from a refilled balance, and marks the claim if it is to be settled. */
    method Spend(key: string, state: Balance, cost: real, cfg: Config, mark: Option<ClaimMark>, ttl: int, now: int)
      requires cfg.Usable()
      modifies this`cells, this`epochs
      ensures Contents() == old(Contents()).PutCell(key, Commit(old(Contents()).CellOf(key), state, cost, cfg, mark, ttl, now))
    {
      WriteBucket(key, state.(tokens := state.tokens - cost), ttl, Some(cfg), now);
      if mark.Some? {
        WriteMark(key, mark.value, cost, state, now);
      }
    }

    method AcquireTokens(key: string, cost: real, cfg: Config, mark: Option<ClaimMark>, ttl: int,
          now: int) returns (result: AcquireResult)
      modifies this`cells, this`epochs
      ensures (Contents(), result) == AcquireIn(old(Contents()), key, cost, cfg, mark, ttl, now)
    {
      var configError := UnusableBudget(cost, cfg);
      if configError.Some? {
        return Unusable(configError.value);
      }
      var state := Refill(key, cfg, now);
      if CoversCost(state.tokens, cost, cfg.maxTokens) {
        Spend(key, state, cost, cfg, mark, ttl, now);
        return Acquired(state.tokens - cost);
      }
      var needed := cost - state.tokens;
      var intervalsNeeded := Ceil(needed / cfg.tokensToAdd);
      var waitTime := MaxInt(0, intervalsNeeded * cfg.interval - (now - state.lastUpdate));
      WriteBucket(key, state, ttl, Some(cfg), now);
      return Declined(waitTime, state.tokens);
    }

    method BumpGeneration(key: string)
      requires Contents().CellOf(key).bucket.Some?
      modifies this`cells
      ensures Contents() == old(Contents()).PutCell(key, Buckets.BumpGeneration(old(Contents()).CellOf(key)))
    {
      var bucket := cells[key].bucket.value.value;
      SetHash(key, bucket.(generation := bucket.generation + 1));
    }

    method ResetTokenBucket(key: string, maxTokens: real, now: int)
      modifies this`cells
      ensures Contents() == old(Contents()).PutCell(key, Reset(old(Contents()).CellOf(key), maxTokens, now))
    {
      var hash := Hash(key, now);
      var overflow, fills := 0.0, 0;
      if hash.Some? {
        overflow, fills := hash.value.bal.overflow, hash.value.bal.fills;
      }
      WriteBucket(key, Balance(maxTokens, now, overflow, fills), DAY_SECONDS, None, now);
      BumpGeneration(key);
    }

    method EmptyTokenBucket(key: string, cfg: Config, now: int)
      modifies this`cells
      ensures Contents() == old(Contents()).PutCell(key, Empty(old(Contents()).CellOf(key), cfg, now))
    {
      var hash := Hash(key, now);
      var tokens, overflow, fills := 0.0, 0.0, 0;
      if hash.Some? {
        tokens, overflow, fills := hash.value.bal.tokens, hash.value.bal.overflow, hash.value.bal.fills;
      }
      var sizing := if UnusableBudget(0.0, cfg).Some? then None else Some(cfg);
      WriteBucket(key, Balance(Min(tokens, 0.0), now, overflow, fills), DAY_SECONDS, sizing, now);
      BumpGeneration(key);
    }

    method SettleTokens(specs: seq<SettleSpec>, now: int) returns (results: seq<SettleResult>)
      modifies this`cells
      ensures (Contents(), results) == SettleAll(old(Contents()), specs, now)
    {
      results := [];
      var i := 0;
      while i < |specs|
        invariant 0 <= i <= |specs|
        invariant (Contents(), results) == SettleAll(old(Contents()), specs[..i], now)
      {
        assert specs[..i + 1][..i] == specs[..i];
        var result := SettleMark(specs[i], now);
        results := results + [result];
        i := i + 1;
      }
      assert specs[..i] == specs;
    }

    /** One turn of the loop above. */
    method SettleMark(spec: SettleSpec, now: int) returns (result: SettleResult)
      modifies this`cells
      ensures (Contents(), result) == SettleOne(old(Contents()), spec, now)
    {
      var key := spec.key;
      var mark: Option<Mark> := None;
      if key in cells {
        mark := Live(cells[key].marks, spec.markId, now);
      }
      if mark.None? || spec.actual < 0.0 || UnusableBudget(0.0, spec.cfg).Some? {
        return SettleResult(false, 0.0, 0.0);
      }
      var hash := Hash(key, now);
      var state := Refill(key, spec.cfg, now);
      ghost var was := Contents();
      ghost var consumed := was.CellOf(key).(marks := was.CellOf(key).marks - {spec.markId});
      cells := cells[key := cells[key].(marks := cells[key].marks - {spec.markId})];
      assert Contents() == was.PutCell(key, consumed);
      if hash.None? {
        return SettleResult(true, 0.0, 0.0);
      }
      var b, m := hash.value, mark.value;
      var o := SettleAmount(SettleInput(state.tokens, spec.cfg.maxTokens, spec.maxDebt, spec.actual, m.claimed,
        state.overflow, m.overflow, b.forgiven, m.forgiven, state.fills, m.fills, b.generation, m.generation, b.epoch, m.epoch));
      WriteBucket(key, state.(tokens := state.tokens - o.applied), DAY_SECONDS, Some(spec.cfg), now);
      assert Contents() == was.PutCell(key, Contents().CellOf(key));
      var written := cells[key].bucket.value.value;
      SetHash(key, written.(forgiven := o.forgiven));
      assert Contents() == was.PutCell(key, Contents().CellOf(key));
      assert o == Decide(b, m, spec.actual, spec.cfg, spec.maxDebt, now);
      return SettleResult(true, o.applied, o.unapplied);
    }

    method CreditTokens(key: string, cost: real, maxTokens: real, freezeKey: string, now: int)
      modifies this`cells
      ensures Contents() == RefundIn(old(Contents()), key, cost, maxTokens, freezeKey, now)
    {
      if cost < 0.0 {
        return;
      }
      if freezeKey != "" && FreezeEmptiedBucket(freezeKey, now) {
        return;
      }
      var hash := Hash(key, now);
      if hash.None? {
        return;
      }
      var tokens := hash.value.bal.tokens;
      SetHash(key, hash.value.(bal := hash.value.bal.(tokens := Min(maxTokens, tokens + cost))));
    }

    method TouchClaimMark(key: string, markId: string, ttl: int, now: int) returns (touched: bool)
      modifies this`cells
      ensures touched == Live(old(Contents()).CellOf(key).marks, markId, now).Some?
      ensures Contents() == if touched then old(Contents()).PutCell(key, TouchMark(old(Contents()).CellOf(key), markId, ttl, now))
        else old(Contents())
    {
      if key !in cells || Live(cells[key].marks, markId, now).None? {
        return false;
      }
      var marks := cells[key].marks;
      cells := cells[key := cells[key].(marks := marks[markId := marks[markId].(expiresAt := now + ttl * 1000)])];
      return true;
    }

    // ------------------------------------------------------------ concurrency

    /** Goes through the members and drops those whose stamp is not after `expireTime`. */
    method ReapConcurrency(key: string, expireTime: int, now: int)
      modifies this`ledgers
      ensures Contents() == old(Contents()).ReapLedger(key, expireTime, now)
    {
      if key !in ledgers || ledgers[key].slots.None? || now >= ledgers[key].slots.value.expiresAt {
        assert key in ledgers ==> ledgers[key := ledgers[key]] == ledgers;
        return;
      }
      ghost var was := ledgers[key];
      var l := ledgers[key];
      var members := l.slots.value.value;
      var rest := members.Keys;
      ghost var gone: set<string> := {};
      CutNone(l, now);
      while rest != {}
        invariant rest <= members.Keys && Contents() == old(Contents())
        invariant forall id :: id in gone <==> id in members && id !in rest && members[id] <= expireTime
        invariant l == Cut(was, gone, now)
        decreases |rest|
      {
        var member :| member in rest;
        rest := rest - {member};
        if members[member] <= expireTime {
          l := Cut(l, {member}, now);
          CutTwice(was, gone, {member}, now);
          gone := gone + {member};
        }
      }
      assert members == was.Members(now) && gone == Lapsed(was, expireTime, now);
      assert Reap(was, expireTime, now) == Slots.Remove(was, gone, now);
      ledgers := ledgers[key := Ledger(DropIfEmpty(l.slots), DropIfEmpty(l.costs))];
      assert ledgers == old(ledgers)[key := Reap(was, expireTime, now)];
    }

    /** Sums what every member but `exceptId` holds. */
    method ConcurrencyCost(key: string, exceptId: string, now: int) returns (total: real)
      ensures total == Contents().LedgerOf(key).Occupancy(exceptId, now)
    {
      total := 0.0;
      var l := if key in ledgers then ledgers[key] else NO_LEDGER;
      var members, costs := l.Members(now), l.Costs(now);
      var rest := members.Keys;
      ghost var held := l.Held(exceptId, now);
      ghost var counted: map<string, real> := map[];
      while rest != {}
        invariant rest <= members.Keys
        invariant counted == map id | id in held && id !in rest :: held[id]
        invariant total == Total(counted)
        decreases |rest|
      {
        var member :| member in rest;
        rest := rest - {member};
        if member != exceptId {
          var cost := if member in costs then costs[member] else 1.0;
          total := total + cost;
          TotalPut(counted, member, cost);
          assert counted - {member} == counted;
          counted := counted[member := cost];
        }
      }
      assert counted == held;
    }

    method ClaimSlot(key: string, id: string, cost: real, ttl: int, now: int)
      modifies this`ledgers
      ensures Contents() == CommitSlot(old(Contents()), PlannedSlot(key, id, cost), ttl, now)
    {
      var l := if key in ledgers then ledgers[key] else NO_LEDGER;
      var members, costs := l.Members(now), l.Costs(now);
      members := members[id := now];
      costs := costs[id := cost];
      ledgers := ledgers[key := Ledger(Some(Entry(members, now + ttl * 1000)), Some(Entry(costs, now + ttl * 1000)))];
    }

    method AcquireConcurrency(key: string, cost: real, id: string, cfg: SlotConfig, ttl: int, now: int)
        returns (result: SlotResult)
      modifies this`ledgers
      ensures (Contents(), result) == AcquireSlotIn(old(Contents()), key, cost, id, cfg, ttl, now)
    {
      var error := UnusableSlot(cost, cfg);
      if error.Some? {
        return SlotUnusable(error.value);
      }
      ReapConcurrency(key, now - cfg.requestTtl, now);
      assert Contents().LedgerOf(key) == Reap(old(Contents()).LedgerOf(key), now - cfg.requestTtl, now);
      var currentCost := ConcurrencyCost(key, id, now);
      if currentCost + cost > cfg.maxConcurrency {
        return SlotFull(currentCost);
      }
      ClaimSlot(key, id, cost, ttl, now);
      assert ledgers == old(ledgers)[key := ledgers[key]];
      return SlotAcquired(currentCost + cost);
    }

    /** Claims only if the request's entry is in progress, which it looks up in this same step. */
    method AcquireQueuedConcurrency(key: string, requestId: Text, cost: real, id: string, cfg: SlotConfig, now: int)
        returns (result: SlotResult)
      modifies this`ledgers
      ensures BeingAdmitted(queue.Contents(), requestId, now) || UnusableSlot(cost, cfg).Some? ==>
        (Contents(), result) == AcquireSlotIn(old(Contents()), key, cost, id, cfg, DAY_SECONDS, now)
      ensures !BeingAdmitted(queue.Contents(), requestId, now) && UnusableSlot(cost, cfg).None? ==>
        && Contents() == old(Contents()).ReapLedger(key, now - cfg.requestTtl, now)
        && result == SlotFull(Contents().LedgerOf(key).Occupancy(id, now))
    {
      var error := UnusableSlot(cost, cfg);
      if error.Some? {
        return SlotUnusable(error.value);
      }
      var entry := queue.Metadata(requestId, now);
      if entry.None? || entry.value.status != InProgress {
        ReapConcurrency(key, now - cfg.requestTtl, now);
        var currentCost := ConcurrencyCost(key, id, now);
        return SlotFull(currentCost);
      }
      result := AcquireConcurrency(key, cost, id, cfg, DAY_SECONDS, now);
    }

    method ReleaseSlot(key: string, id: string, now: int)
      modifies this`ledgers
      ensures Contents() == ReleaseIn(old(Contents()), key, id, now)
    {
      if key !in ledgers {
        return;
      }
      var l := ledgers[key];
      if l.slots.Some? && now < l.slots.value.expiresAt {
        l := l.(slots := Some(l.slots.value.(value := l.slots.value.value - {id})));
      }
      if l.costs.Some? && now < l.costs.value.expiresAt {
        l := l.(costs := Some(l.costs.value.(value := l.costs.value.value - {id})));
      }
      ledgers := ledgers[key := Ledger(DropIfEmpty(l.slots), DropIfEmpty(l.costs))];
    }

    method TouchConcurrency(key: string, id: string, ttl: int, now: int) returns (touched: bool)
      modifies this`ledgers
      ensures touched == TouchSlot(old(Contents()).LedgerOf(key), id, ttl, now).1
      ensures Contents() == if touched then old(Contents()).PutLedger(key, TouchSlot(old(Contents()).LedgerOf(key), id, ttl, now).0)
        else old(Contents())
    {
      if key !in ledgers || id !in ledgers[key].Members(now) {
        return false;
      }
      var l := ledgers[key];
      var members := l.Members(now);
      l := l.(slots := Some(Entry(members[id := now], now + ttl * 1000)));
      if l.costs.Some? && now < l.costs.value.expiresAt {
        l := l.(costs := Some(l.costs.value.(expiresAt := now + ttl * 1000)));
      }
      ledgers := ledgers[key := l];
      return true;
    }

    // --------------------------------------------------------- several budgets

    /** Reaps a ledger and says whether the cost fits beside what is left. */
    method HasRoom(key: string, cost: real, id: string, cfg: SlotConfig, now: int) returns (room: bool)
      modifies this`ledgers
      ensures Contents() == old(Contents()).ReapLedger(key, now - cfg.requestTtl, now)
      ensures room <==> Contents().LedgerOf(key).Occupancy(id, now) + cost <= cfg.maxConcurrency
    {
      ReapConcurrency(key, now - cfg.requestTtl, now);
      var currentCost := ConcurrencyCost(key, id, now);
      return !(currentCost + cost > cfg.maxConcurrency);
    }

    /** A bucket's refilled balance, and the wait if it cannot cover the cost. */
    method CheckBucket(key: string, cost: real, cfg: Config, now: int) returns (state: Balance, wait: Option<int>)
      requires cfg.Usable()
      ensures state == Contents().CellOf(key).Reading(cfg, now)
      ensures wait == if CoversCost(state.tokens, cost, cfg.maxTokens) then None else Some(WaitTime(state, cfg, cost, now))
    {
      state := Refill(key, cfg, now);
      if CoversCost(state.tokens, cost, cfg.maxTokens) {
        return state, None;
      }
      var intervalsNeeded := Ceil((cost - state.tokens) / cfg.tokensToAdd);
      return state, Some(MaxInt(0, intervalsNeeded * cfg.interval - (now - state.lastUpdate)));
    }

    method PlanBucket(tally: Tally, spec: Spec, now: int) returns (next: Tally)
      requires spec.BucketSpec? && UnusableSpec(spec).None?
      ensures next.In(Contents()) == PlanSpec(tally.In(Contents()), spec, now)
    {
      var state, wait := CheckBucket(spec.key, spec.cost, spec.cfg, now);
      next := tally.(buckets := tally.buckets + [PlannedBucket(spec.key, state, spec.cost, spec.cfg, spec.mark)]);
      if wait.Some? {
        if next.waitTime.None? || wait.value > next.waitTime.value {
          next := next.(waitTime := wait, blockedBy := Some(spec.key));
        }
        next := next.(acquired := false);
      }
    }

    method PlanSlot(tally: Tally, spec: Spec, now: int) returns (next: Tally)
      requires spec.SlotSpec? && UnusableSpec(spec).None?
      modifies this`ledgers
      ensures next.In(Contents()) == PlanSpec(tally.In(old(Contents())), spec, now)
    {
      var room := HasRoom(spec.key, spec.cost, spec.slotId, spec.slotCfg, now);
      if room {
        return tally.(slots := tally.slots + [PlannedSlot(spec.key, spec.slotId, spec.cost)]);
      }
      next := tally.(acquired := false);
      if next.blockedBy.None? {
        next := next.(blockedBy := Some(spec.key));
      }
    }

    /** The check phase: refills every bucket and reaps every ledger, spending nothing. */
    method PlanMultiLimit(specs: seq<Spec>, now: int) returns (error: Option<SpecError>, tally: Tally)
      modifies this`ledgers
      ensures tally.In(Contents()).(error := error) == PlanAll(old(Contents()), specs, now)
    {
      error, tally := None, Tally(true, None, None, [], []);
      var i := 0;
      while i < |specs|
        invariant 0 <= i <= |specs| && error.None?
        invariant tally.In(Contents()) == PlanAll(old(Contents()), specs[..i], now)
      {
        assert specs[..i + 1][..i] == specs[..i];
        assert PlanAll(old(Contents()), specs[..i + 1], now) == PlanSpec(PlanAll(old(Contents()), specs[..i], now), specs[i], now);
        error := UnusableSpec(specs[i]);
        if error.Some? {
          PlanStops(old(Contents()), specs, i + 1, now);
          tally := tally.(acquired := false);
          return;
        }
        if specs[i].BucketSpec? {
          tally := PlanBucket(tally, specs[i], now);
        } else {
          tally := PlanSlot(tally, specs[i], now);
        }
        i := i + 1;
      }
      assert specs[..i] == specs;
    }

    /** The write phase over the planned buckets: all spent, or all only refilled. */
    method WritePlanned(buckets: seq<PlannedBucket>, spend: bool, ttl: int, now: int)
      requires AllUsable(buckets)
      modifies this`cells, this`epochs
      ensures Contents() == PutBuckets(old(Contents()), buckets, spend, ttl, now)
    {
      var i := 0;
      while i < |buckets|
        invariant 0 <= i <= |buckets|
        invariant Contents() == PutBuckets(old(Contents()), buckets[..i], spend, ttl, now)
      {
        assert buckets[..i + 1][..i] == buckets[..i];
        var b := buckets[i];
        if spend {
          Spend(b.key, b.bal, b.cost, b.cfg, b.mark, ttl, now);
        } else {
          WriteBucket(b.key, b.bal, ttl, Some(b.cfg), now);
        }
        i := i + 1;
      }
      assert buckets[..i] == buckets;
    }

    method ClaimPlanned(slots: seq<PlannedSlot>, ttl: int, now: int)
      modifies this`ledgers
      ensures Contents() == CommitSlots(old(Contents()), slots, ttl, now)
    {
      var i := 0;
      while i < |slots|
        invariant 0 <= i <= |slots|
        invariant Contents() == CommitSlots(old(Contents()), slots[..i], ttl, now)
      {
        assert slots[..i + 1][..i] == slots[..i];
        ClaimSlot(slots[i].key, slots[i].slotId, slots[i].cost, ttl, now);
        i := i + 1;
      }
      assert slots[..i] == slots;
    }

    /** The check phase and the write phase, as one operation. */
    method AcquireMultiLimit(specs: seq<Spec>, ttl: int, now: int) returns (result: MultiResult)
      modifies this`cells, this`epochs, this`ledgers
      ensures (Contents(), result) == MultiLimit.AcquireMultiLimit(old(Contents()), specs, ttl, now)
    {
      PlansAreUsable(Contents(), specs, now);
      var error, tally := PlanMultiLimit(specs, now);
      if error.Some? {
        return UnusableSpecs(error.value);
      }
      WritePlanned(tally.buckets, tally.acquired, ttl, now);
      if !tally.acquired {
        return Refused(if tally.waitTime.Some? then tally.waitTime.value else 0, tally.blockedBy);
      }
      ClaimPlanned(tally.slots, ttl, now);
      return AllAcquired;
    }

    method ReleaseMultiLimit(specs: seq<Spec>, now: int)
      modifies this`cells, this`epochs, this`ledgers
      ensures Contents() == MultiLimit.ReleaseMultiLimit(old(Contents()), specs, now)
    {
      var i := 0;
      while i < |specs|
        invariant 0 <= i <= |specs|
        invariant Contents() == MultiLimit.ReleaseMultiLimit(old(Contents()), specs[..i], now)
      {
        assert specs[..i + 1][..i] == specs[..i];
        var spec := specs[i];
        if spec.SlotSpec? {
          ReleaseSlot(spec.key, spec.slotId, now);
        } else {
          CreditTokens(spec.key, spec.cost, spec.cfg.maxTokens, spec.freezeKey, now);
        }
        i := i + 1;
      }
      assert specs[..i] == specs;
    }

    // ------------------------------------------------------------- fast paths

    /** Whether anything is queued ahead of a new arrival. */
    method Waiting(now: int) returns (waiting: bool)
      ensures waiting <==> queue.Contents().scores.At(now) != map[]
    {
      var ids := queue.Sorted(now);
      assert ids != [] ==> ids[0] in queue.Contents().scores.At(now);
      return ids != [];
    }

    /** One bucket, past an empty queue and no freeze; declined without a claim otherwise. */
    method TryAdmitImmediately(key: string, freezeKey: string, cost: real, cfg: Config, ttl: int,
          mark: Option<ClaimMark>, now: int)
        returns (admitted: bool)
      modifies this`cells, this`epochs
      ensures if UnusableBudget(cost, cfg).None? && MayAdmit(old(Contents()), queue.Contents(), [freezeKey], now)
        then
          var (after, result) := AcquireIn(old(Contents()), key, cost, cfg, mark, ttl, now);
          Contents() == after && (admitted <==> result.Acquired?)
        else !admitted && Contents() == old(Contents())
    {
      assert freezeKey in [freezeKey];
      if UnusableBudget(cost, cfg).Some? {
        return false;
      }
      var waiting := Waiting(now);
      if waiting {
        return false;
      }
      if FreezeBlocksAdmission(freezeKey, now) {
        return false;
      }
      var state := Refill(key, cfg, now);
      if !CoversCost(state.tokens, cost, cfg.maxTokens) {
        WriteBucket(key, state, ttl, Some(cfg), now);
        return false;
      }
      Spend(key, state, cost, cfg, mark, ttl, now);
      return true;
    }

    method TryAdmitConcurrency(key: string, freezeKey: string, cost: real, id: string,
          cfg: SlotConfig, ttl: int, now: int)
        returns (admitted: bool)
      modifies this`ledgers
      ensures if UnusableSlot(cost, cfg).None? && MayAdmit(old(Contents()), queue.Contents(), [freezeKey], now)
        then
          var (after, result) := AcquireSlotIn(old(Contents()), key, cost, id, cfg, ttl, now);
          Contents() == after && (admitted <==> result.SlotAcquired?)
        else !admitted && Contents() == old(Contents())
    {
      assert freezeKey in [freezeKey];
      var waiting := Waiting(now);
      if waiting || UnusableSlot(cost, cfg).Some? {
        return false;
      }
      if FreezeBlocksAdmission(freezeKey, now) {
        return false;
      }
      var result := AcquireConcurrency(key, cost, id, cfg, ttl, now);
      return result.SlotAcquired?;
    }

    method TryAdmitMultiLimit(freezeKeys: seq<string>, specs: seq<Spec>, ttl: int,
          now: int) returns (admitted: bool)
      modifies this`cells, this`epochs, this`ledgers
      ensures if MayAdmit(old(Contents()), queue.Contents(), freezeKeys, now)
        then
          var (after, result) := MultiLimit.AcquireMultiLimit(old(Contents()), specs, ttl, now);
          Contents() == after && (admitted <==> result.AllAcquired?)
        else !admitted && Contents() == old(Contents())
    {
      var waiting := Waiting(now);
      if waiting {
        return false;
      }
      var i := 0;
      while i < |freezeKeys|
        invariant 0 <= i <= |freezeKeys|
        invariant forall j :: 0 <= j < i ==> !BlocksAdmission(Contents().FreezeOf(freezeKeys[j]), now)
      {
        if FreezeBlocksAdmission(freezeKeys[i], now) {
          assert freezeKeys[i] in freezeKeys;
          return false;
        }
        i := i + 1;
      }
      var result := AcquireMultiLimit(specs, ttl, now);
      return result.AllAcquired?;
    }

    // ---------------------------------------------------------- freeze and thaw

    function FreezeCellOf(key: string): (c: FreezeCell)
      reads this
      ensures c == Contents().FreezeOf(key)
    {
      if key in freezes then freezes[key] else NO_FREEZE
    }

    predicate FreezeBlocksAdmission(key: string, now: int)
      reads this
      ensures FreezeBlocksAdmission(key, now) <==> BlocksAdmission(Contents().FreezeOf(key), now)
    {
      var f := FreezeCellOf(key).Stored(now);
      if f.None? then false
      else if now < f.value.state.frozenUntil then true
      else f.value.state.thawRequestCount > 0
    }

    predicate FreezeEmptiedBucket(key: string, now: int)
      reads this
      ensures FreezeEmptiedBucket(key, now) <==> Emptied(Contents().FreezeOf(key), now)
    {
      var f := FreezeCellOf(key).Stored(now);
      f.Some? && f.value.state.frozenUntil > now && f.value.emptiesBucket
    }

    /** Merges with a standing freeze, keeping the larger of each field. */
    method ArmFreeze(key: string, frozenUntil: real, thawRequestCount: real, emptiesBucket: bool,
          now: int) returns (state: FreezeState)
      modifies this`freezes
      ensures Contents() == old(Contents()).PutFreeze(key,
        Arm(old(Contents()).FreezeOf(key), frozenUntil, thawRequestCount, emptiesBucket, now))
      ensures Contents().FreezeOf(key).freeze.Some? && state == Contents().FreezeOf(key).freeze.value.value.state
    {
      var until, thaw, empties := frozenUntil, thawRequestCount, emptiesBucket;
      var cell := FreezeCellOf(key);
      var existing := cell.Stored(now);
      if existing.Some? {
        var was := existing.value;
        if was.state.frozenUntil > now && was.emptiesBucket {
          empties := true;
        }
        if was.state.frozenUntil as real > until {
          until := was.state.frozenUntil as real;
        }
        if was.state.thawRequestCount as real > thaw {
          thaw := was.state.thawRequestCount as real;
        }
      }
      state := FreezeState(Deadline(until), ProbesOwed(thaw));
      var ttl := FreezeTtlSeconds(state, now);
      freezes := freezes[key := cell.(freeze := Some(Entry(StoredFreeze(state, empties), now + ttl * 1000)))];
    }

    /** Counts a completion id first and consults the freeze second. */
    method UpdateThawProgress(key: string, success: bool, completionId: string, now: int)
        returns (state: Option<FreezeState>)
      modifies this`freezes
      ensures var (f, answer) := UpdateThaw(old(Contents()).FreezeOf(key), success, completionId, now);
        Contents() == old(Contents()).PutFreeze(key, f) && state == answer
    {
      var cell := FreezeCellOf(key);
      var alreadySeen := completionId != "" && completionId in cell.Seen(now);
      if completionId != "" && !alreadySeen {
        cell := cell.(seen := Some(Entry(cell.Seen(now) + {completionId}, now + FREEZE_PROBE_TTL_SECONDS * 1000)));
      }
      freezes := freezes[key := cell];
      var stored := cell.Stored(now);
      if stored.None? {
        return None;
      }
      var s := stored.value.state;
      if alreadySeen {
        return Some(s);
      }
      if now >= s.frozenUntil && s.thawRequestCount <= 0 {
        freezes := freezes[key := cell.(freeze := None)];
        return None;
      }
      if !success {
        return Some(s);
      }
      var newCount := MaxInt(0, s.thawRequestCount - 1);
      if newCount == 0 && now >= s.frozenUntil {
        freezes := freezes[key := cell.(freeze := None)];
        return None;
      }
      s := s.(thawRequestCount := newCount);
      freezes := freezes[key := cell.(freeze := Some(Entry(stored.value.(state := s), now + FreezeTtlSeconds(s, now) * 1000)))];
      return Some(s);
    }

    /** Three answers: no freeze in force, refused until its window ends, or let go as a probe. */
    method CanProcessRequest(key: string, now: int) returns (canProcess: bool, isThawRequest: bool,
          frozenUntil: Option<int>)
      ensures canProcess == CanProcess(Contents().FreezeOf(key), now)
      ensures isThawRequest <==> canProcess && Read(Contents().FreezeOf(key), now).Some?
      ensures frozenUntil.Some? <==> Read(Contents().FreezeOf(key), now).Some?
      ensures frozenUntil.Some? ==> (canProcess <==> now >= frozenUntil.value)
    {
      var f := FreezeCellOf(key).Stored(now);
      if f.None? || (now >= f.value.state.frozenUntil && f.value.state.thawRequestCount <= 0) {
        return true, false, None;
      }
      if now < f.value.state.frozenUntil {
        return false, false, Some(f.value.state.frozenUntil);
      }
      return true, true, Some(f.value.state.frozenUntil);
    }
  }
}
