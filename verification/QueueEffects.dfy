/**
 * What one operation on the queue leaves for whatever comes after it: an added request, a
 * claim that can still be confirmed, a removed one and its neighbours.
 */
module QueueEffects {
  import opened Numbers
  import opened Buckets
  import opened MemberOrder
  import opened QueueEntry
  import opened RequestQueue

  /** Every other id reads as it did, its score included, from `now` on. */
  ghost predicate OthersKept(q: Queue, r: Queue, id: Text, now: int) {
    && (forall other :: other != id ==> (other in q.entries <==> other in r.entries))
    && (forall other :: other != id && other in q.entries ==> r.entries[other] == q.entries[other])
    && (forall other :: other != id ==> (other in q.tombstones <==> other in r.tombstones))
    && (forall other :: other != id && other in q.tombstones ==> r.tombstones[other] == q.tombstones[other])
    && (forall other :: other != id ==> (other in q.scores.At(now) <==> other in r.scores.At(now)))
    && (forall other :: other != id && other in q.scores.At(now) ==> r.scores.At(now)[other] == q.scores.At(now)[other])
  }

  // ------------------------------------------------------------------- removal

  /**
   * A removal takes the request's score with it, so from then on what waits is what else
   * waited: the queue is empty for a new arrival exactly if nothing else was in it.
   */
  lemma RemovalLeavesTheRest(q: Queue, id: Text, tombstoneTtl: int, now: int, later: int)
    requires now <= later
    ensures var r := Remove(q, id, tombstoneTtl, now);
      && OthersKept(q, r, id, now) && id !in r.entries
      && r.scores.At(later) == q.scores.At(later) - {id}
      && (r.scores.At(later) == map[] <==> forall other :: other in q.scores.At(later) ==> other == id)
  {
    var left := q.scores.At(later) - {id};
    assert left == map[] <==> forall other :: other in q.scores.At(later) ==> other == id by {
      if forall other :: other in q.scores.At(later) ==> other == id {
        assert forall other :: other !in left;
        assert left == map[];
      }
      assert forall other :: other in q.scores.At(later) && other != id ==> other in left;
    }
  }

  // ---------------------------------------------------------------------- adding

  /** Refused by a mark of its removal, or by an entry of its id that lives. */
  predicate Refused(q: Queue, id: Text, now: int) {
    (id in q.tombstones && now < q.tombstones[id]) || q.Find(id, now).Some?
  }

  /**
   * An add throws for a request that cannot be scored, does nothing for one that is
   * refused, and otherwise queues it for its whole lifetime, unclaimed, at the rank of its
   * metadata, every other id keeping its own; with that lifetime the whole queue ends.
   */
  lemma AddQueuesExactly(q: Queue, id: Text, m: Meta, ttl: int, now: int, later: int)
    requires InEpoch(m.timestamp) && now <= later < now + ttl * 1000
    ensures var (r, result) := Add(q, id, m, ttl, now);
      && (result.Added? <==> !Refused(q, id, now)) && !result.Threw?
      && (!result.Added? ==> r == q)
      && (result.Added? ==>
            && OthersKept(q, r, id, now)
            && r.Find(id, later) == Some(m.(claimedAt := None))
            && id in r.scores.At(later) && r.scores.At(later)[id] == ScoreOf(m)
            && r.scores.At(now + ttl * 1000) == map[])
  {
    AddAndUpdateAgree(m.priority, m.retries, m.timestamp);
  }

  // ---------------------------------------------------------------- confirmation

  /** The step leaves alone the claim of `id` stamped `stamp`, whose owner is `ownerId`. */
  ghost predicate SparesClaim(step: QueueStep, id: Text, stamp: int, ownerId: string) {
    match step
    case AddStep(_, _, _, _) => true
    case ClaimStep(other, _) => other != id
    case ConfirmStep(other, claimedAt, _) => other != id || claimedAt != stamp
    case UpdateStep(other, updates, _) => other != id || updates.status.None?
    case RemoveStep(other, _, _) => other != id
    case ThawStep(_, _, _, _) => true
    case SweepStep(alive, _) => ownerId != "" && ownerId in alive
  }

  /** The entry, stored until `until`, is under the claim stamped `stamp`. */
  ghost predicate UnderClaim(q: Queue, id: Text, stamp: int, ownerId: string, until: int) {
    && id in q.entries && q.entries[id].expiresAt == until
    && var m := q.entries[id].value; m.status == InProgress && m.claimedAt == Some(stamp) && m.ownerId == ownerId
  }

  lemma {:induction false} ClaimStands(q: Queue, steps: seq<QueueStep>, id: Text, stamp: int, ownerId: string, until: int)
    requires UnderClaim(q, id, stamp, ownerId, until)
    requires forall i :: 0 <= i < |steps| ==> steps[i].now < until && SparesClaim(steps[i], id, stamp, ownerId)
    ensures UnderClaim(RunQueue(q, steps), id, stamp, ownerId, until)
    decreases |steps|
  {
    if steps != [] {
      assert SparesClaim(steps[0], id, stamp, ownerId);
      StepSparesClaim(q, steps[0], id, stamp, ownerId, until);
      ClaimStands(ApplyQueue(q, steps[0]), steps[1..], id, stamp, ownerId, until);
    }
  }

  lemma StepSparesClaim(q: Queue, step: QueueStep, id: Text, stamp: int, ownerId: string, until: int)
    requires UnderClaim(q, id, stamp, ownerId, until) && step.now < until && SparesClaim(step, id, stamp, ownerId)
    ensures UnderClaim(ApplyQueue(q, step), id, stamp, ownerId, until)
  {
  }

  /**
   * Whatever other requests go through meanwhile, and its own being marked or re-scored: a
   * claim is confirmed at any time inside its lease, and at no time after it.
   */
  lemma ClaimIsConfirmableExactly(q: Queue, id: Text, now: int, steps: seq<QueueStep>, later: int)
    requires q.Find(id, now).Some? && later < q.entries[id].expiresAt
    requires forall i :: 0 <= i < |steps| ==>
      steps[i].now < q.entries[id].expiresAt && SparesClaim(steps[i], id, now, q.entries[id].value.ownerId)
    ensures var (after, granted) := Confirm(RunQueue(ClaimEntry(q, id, now), steps), id, now, later);
      && (granted <==> later < now + QUEUE_CLAIM_LEASE_MS)
      && (granted ==> after.Find(id, later).Some? && Dispatched(after.Find(id, later).value))
  {
    ClaimStands(ClaimEntry(q, id, now), steps, id, now, q.entries[id].value.ownerId, q.entries[id].expiresAt);
  }

  // ------------------------------------------------------------------- updating

  /** The field holds what the update names for it, or what it held. */
  predicate Holds<T(==)>(after: T, named: Option<T>, before: T) {
    after == if named.Some? then named.value else before
  }

  /**
   * An update writes the fields it names and no other, except that a status ends any claim;
   * a request that is not there stays so.
   */
  lemma UpdateWritesExactly(q: Queue, id: Text, u: Updates, now: int)
    ensures var r := Update(q, id, u, now);
      && (q.Find(id, now).None? ==> r == q)
      && (q.Find(id, now).Some? ==>
            && OthersKept(q, r, id, now) && r.Find(id, now).Some?
            && var before, after := q.Find(id, now).value, r.Find(id, now).value;
            && Holds(after.status, u.status, before.status) && Holds(after.retries, u.retries, before.retries)
            && Holds(after.priority, u.priority, before.priority)
            && Holds(after.isThawRequest, u.isThawRequest, before.isThawRequest)
            && after.claimedAt == (if u.status.Some? then None else before.claimedAt)
            && after.timestamp == before.timestamp && after.grantId == before.grantId
            && after.ownerId == before.ownerId && after.clientName == before.clientName
            && (u.retries.Some? || u.priority.Some? ==> id in r.scores.At(now) && r.scores.At(now)[id] == ScoreOf(after)))
  {
  }

  // --------------------------------------------------------------------- sweeping

  /** A sweep drops the queued requests nobody is alive to take, and spares every other. */
  lemma SweepDropsExactly(q: Queue, alive: set<string>, now: int, id: Text)
    requires id in q.scores.At(now)
    ensures var r, m := Sweep(q, alive, now), q.Find(id, now);
      if m.Some? && m.value.ownerId != "" && m.value.ownerId in alive
      then r.Find(id, now) == m && id in r.scores.At(now) && r.scores.At(now)[id] == q.scores.At(now)[id]
      else id !in r.entries && id !in r.scores.At(now)
  {
  }
}
