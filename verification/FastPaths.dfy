/**
 * When a request may be admitted on arrival, without being queued: never ahead of one
 * that waits, and never while a freeze is in force; and for whom a slot may be claimed.
 */
module FastPaths {
  import opened Numbers
  import opened Buckets
  import opened Freeze
  import opened MultiLimit
  import opened MemberOrder
  import opened QueueEntry
  import opened RequestQueue
  import opened QueueEffects
  import opened MemoryBackend

  /** The gate is open exactly when nothing waits and no freeze of the budgets is read. */
  lemma GateIsExact(s: Store, q: Queue, freezeKeys: seq<string>, now: int)
    ensures MayAdmit(s, q, freezeKeys, now)
      <==> (forall id :: id !in q.scores.At(now)) && forall k :: k in freezeKeys ==> Read(s.FreezeOf(k), now).None?
  {
    forall k ensures BlocksAdmission(s.FreezeOf(k), now) <==> Read(s.FreezeOf(k), now).Some? {
      ReadsAgree(s.FreezeOf(k), now);
    }
    if forall id :: id !in q.scores.At(now) {
      assert q.scores.At(now) == map[];
    }
  }

  /** The request waits, and the queue's key lives to `until` at least. */
  ghost predicate Waits(q: Queue, id: Text, until: int) {
    id in q.scores.byId && (q.scores.expiresAt.Some? ==> q.scores.expiresAt.value >= until)
  }

  /**
   * The step neither removes the request nor sweeps the queue, and queues others for no
   * shorter a time.
   */
  predicate SparesWaiter(step: QueueStep, id: Text, from: int, until: int) {
    && from <= step.now < until
    && (step.AddStep? ==> step.now + step.ttl * 1000 >= until)
    && (step.RemoveStep? ==> step.id != id)
    && !step.SweepStep?
  }

  lemma {:induction false} WaiterWaits(q: Queue, steps: seq<QueueStep>, id: Text, from: int, until: int)
    requires Waits(q, id, until) && forall i :: 0 <= i < |steps| ==> SparesWaiter(steps[i], id, from, until)
    ensures Waits(RunQueue(q, steps), id, until)
    decreases |steps|
  {
    if steps != [] {
      assert SparesWaiter(steps[0], id, from, until);
      WaiterWaits(ApplyQueue(q, steps[0]), steps[1..], id, from, until);
    }
  }

  /**
   * A queued request is never overtaken by a new arrival: from the moment it is added until
   * it is removed, or the lifetime it was queued for is over, every fast path is closed,
   * claimed and returned as it may be meanwhile.
   */
  lemma NoArrivalOvertakes(q: Queue, id: Text, m: Meta, ttl: int, now: int, steps: seq<QueueStep>,
        s: Store, freezeKeys: seq<string>, later: int)
    requires Add(q, id, m, ttl, now).1.Added? && now <= later < now + ttl * 1000
    requires forall i :: 0 <= i < |steps| ==> SparesWaiter(steps[i], id, now, now + ttl * 1000)
    ensures !MayAdmit(s, RunQueue(Add(q, id, m, ttl, now).0, steps), freezeKeys, later)
  {
    var added := Add(q, id, m, ttl, now).0;
    WaiterWaits(added, steps, id, now, now + ttl * 1000);
    assert id in RunQueue(added, steps).scores.At(later);
  }

  /** And the gate opens with the last removal: an emptied queue keeps nobody waiting. */
  lemma LastRemovalOpens(q: Queue, id: Text, tombstoneTtl: int, now: int, s: Store, freezeKeys: seq<string>, later: int)
    requires now <= later && (forall other :: other in q.scores.At(now) ==> other == id)
    requires forall k :: k in freezeKeys ==> Read(s.FreezeOf(k), later).None?
    ensures MayAdmit(s, Remove(q, id, tombstoneTtl, now), freezeKeys, later)
  {
    RemovalLeavesTheRest(q, id, tombstoneTtl, now, later);
    GateIsExact(s, Remove(q, id, tombstoneTtl, now), freezeKeys, later);
  }

  // ---------------------------------------------- who a queued slot may be claimed for

  /**
   * A slot may be claimed for a request from the moment it is handed out, whatever happens
   * to others and even past its lease, until it is put back or removed; then no longer.
   */
  lemma AdmittedUntilPutBack(q: Queue, id: Text, now: int, steps: seq<QueueStep>, tombstoneTtl: int, later: int)
    requires q.Find(id, now).Some? && later < q.entries[id].expiresAt
    requires forall i :: 0 <= i < |steps| ==>
      steps[i].now < q.entries[id].expiresAt && SparesClaim(steps[i], id, now, q.entries[id].value.ownerId)
    ensures var r := RunQueue(ClaimEntry(q, id, now), steps);
      && BeingAdmitted(r, id, later)
      && !BeingAdmitted(Update(r, id, Updates(Some(Pending), None, None, None), later), id, later)
      && !BeingAdmitted(Remove(r, id, tombstoneTtl, later), id, later)
  {
    ClaimStands(ClaimEntry(q, id, now), steps, id, now, q.entries[id].value.ownerId, q.entries[id].expiresAt);
  }
}
