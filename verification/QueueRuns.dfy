/**
 * The protocol is the queue seen through its entries. Whatever loops and owners do, at
 * whatever times, each step they take is one operation on the queue, and what the keys'
 * expiry does in between is steps in which entries vanish. So what is proved of every
 * run of the protocol is proved of the queue.
 */
module QueueRuns {
  import opened Numbers
  import opened MemberOrder
  import opened QueueEntry
  import opened RequestQueue
  import opened Dispatch
  import opened Probes

  /** Some loop or owner takes a step of the protocol at `now`; time passes between acts. */
  datatype Act = Act(step: Step, now: int)

  /** The entries that the protocol knows are the ones that are alive in the queue. */
  ghost predicate Mirrors(w: World, q: Queue) {
    forall id :: q.Find(id, w.now) == if id in w.entries then Some(w.entries[id]) else None
  }

  /**
   * Every entry that is alive is listed, and so it stays: its key does not outlast the
   * sorted set's, and both are given the lifetime `ttl`.
   */
  ghost predicate Listed(q: Queue, ttl: int, now: int) {
    forall id :: id in q.entries && now < q.entries[id].expiresAt ==>
      && id in q.scores.byId
      && (q.scores.expiresAt.Some? ==> q.entries[id].expiresAt <= q.scores.expiresAt.value)
      && q.entries[id].expiresAt <= now + ttl * 1000
  }

  /** Entries whose keys have expired by `now` are gone. */
  function Aged(w: World, q: Queue, now: int): World {
    w.(now := now, entries := map id | id in w.entries && q.Find(id, now).Some? :: w.entries[id])
  }

  const PENDING_AGAIN: Updates := Updates(Some(Pending), None, None, None)

  /** Where a nomination of the entry looks for another probe. */
  function ScopeOf(w: World, id: Text): string {
    if id in w.entries then w.entries[id].grantId else ""
  }

  /** The operation on the queue that a step is, if it is one. */
  function Operation(w: World, step: Step, ttl: int): Option<QueueStep> {
    match step
    case Enqueue(id, meta) => if Addable(w, id, meta) then Some(AddStep(id, meta, ttl, w.now)) else None
    case ClaimEntry(id) =>
      if id in w.entries && Claimable(w.entries[id], w.now) then Some(ClaimStep(id, w.now)) else None
    case Nominate(serial) =>
      if serial !in w.held then None
      else
        Some(ThawStep(w.held[serial].id, ScopeOf(w, w.held[serial].id), w.anyGrant, w.now))
    case ConfirmClaim(serial) => Confirmation(w, serial)
    case LoseAnswer(serial, landed) => if landed then Confirmation(w, serial) else None
    case Return(serial, clearMark) =>
      if serial !in w.held || w.held[serial].standing == Unsent then None
      else Some(UpdateStep(w.held[serial].id, PENDING_AGAIN.(isThawRequest := if clearMark then Some(false) else None), w.now))
    case Retry(id) =>
      if id in w.entries && w.PastOf(id).handed > 0 then Some(UpdateStep(id, PENDING_AGAIN, w.now)) else None
    case Vanish(id) => Some(RemoveStep(id, 0, w.now))
    case _ => None
  }

  function Confirmation(w: World, serial: nat): Option<QueueStep> {
    if serial !in w.held || w.held[serial].standing != Unsent then None
    else Some(ConfirmStep(w.held[serial].id, w.held[serial].stamp, w.now))
  }

  function Perform(q: Queue, op: Option<QueueStep>): Queue {
    if op.Some? then ApplyQueue(q, op.value) else q
  }

  /** The queue takes what the step adds: its score is storable and no tombstone stands. */
  predicate Accepts(w: World, q: Queue, step: Step) {
    step.Enqueue? && Addable(w, step.id, step.meta) ==>
      && CalculateQueueScore(step.meta.priority, step.meta.retries, step.meta.timestamp).Some?
      && (step.id in q.tombstones ==> w.now >= q.tombstones[step.id])
  }

  // ------------------------------------------------------------------- one step

  lemma AgedMirrors(w: World, q: Queue, ttl: int, now: int)
    requires Mirrors(w, q) && Listed(q, ttl, w.now) && w.now <= now
    ensures Mirrors(Aged(w, q, now), q) && Listed(q, ttl, now)
  {
    forall id ensures q.Find(id, now) == if id in Aged(w, q, now).entries then Some(Aged(w, q, now).entries[id]) else None {
      assert q.Find(id, w.now) == if id in w.entries then Some(w.entries[id]) else None;
    }
  }

  /** A live entry is in the sorted set as of now, which is all that its scans go through. */
  lemma LiveIsListed(q: Queue, ttl: int, now: int, id: Text)
    requires Listed(q, ttl, now) && q.Find(id, now).Some?
    ensures id in q.scores.At(now)
  {
  }

  /** So the loop over the sorted set hands out exactly what the protocol may claim, */
  lemma EligibleIsClaimable(w: World, q: Queue, ttl: int, id: Text)
    requires Mirrors(w, q) && Listed(q, ttl, w.now)
    ensures Eligible(q, id, {}, {}, w.now) <==> id in w.entries && Claimable(w.entries[id], w.now)
  {
    if id in w.entries {
      LiveIsListed(q, ttl, w.now, id);
    }
  }

  /** and the scan for a competing probe finds one exactly where some entry competes. */
  lemma ContestedIsScanned(w: World, q: Queue, ttl: int, id: Text, grantId: string)
    requires Mirrors(w, q) && Listed(q, ttl, w.now)
    ensures (exists other :: other in q.scores.At(w.now) && AnotherProbe(q, other, id, grantId, w.anyGrant, w.now))
      <==> exists other :: other in w.entries && Competes(w, other, id, grantId)
  {
    forall other ensures AnotherProbe(q, other, id, grantId, w.anyGrant, w.now) <==> Competes(w, other, id, grantId) {
      assert q.Find(other, w.now) == if other in w.entries then Some(w.entries[other]) else None;
      if other in w.entries {
        LiveIsListed(q, ttl, w.now, other);
      }
    }
    if other :| other in w.entries && Competes(w, other, id, grantId) {
      assert AnotherProbe(q, other, id, grantId, w.anyGrant, w.now);
    }
  }

  /** Each step of the protocol is its operation on the queue. */
  lemma StepIsOperation(w: World, q: Queue, step: Step, ttl: int)
    requires Mirrors(w, q) && Listed(q, ttl, w.now) && ttl > 0 && !step.Tick? && Accepts(w, q, step)
    ensures var r := Perform(q, Operation(w, step, ttl));
      Mirrors(Next(w, step), r) && Listed(r, ttl, w.now) && Next(w, step).now == w.now
  {
    match step
    case Enqueue(id, meta) => EnqueueIsAdd(w, q, id, meta, ttl);
    case Nominate(serial) => NominateIsThaw(w, q, serial, ttl);
    case Vanish(id) => VanishIsRemove(w, q, id, ttl);
    case _ => EntryIsRewritten(w, q, step, ttl);
  }

  lemma EnqueueIsAdd(w: World, q: Queue, id: Text, meta: Meta, ttl: int)
    requires Mirrors(w, q) && Listed(q, ttl, w.now) && ttl > 0 && Accepts(w, q, Enqueue(id, meta))
    ensures var r := Perform(q, Operation(w, Enqueue(id, meta), ttl));
      Mirrors(AddRequest(w, id, meta), r) && Listed(r, ttl, w.now)
  {
    assert q.Find(id, w.now) == if id in w.entries then Some(w.entries[id]) else None;
    forall other | other in q.entries && w.now < q.entries[other].expiresAt ensures other in q.scores.At(w.now) {
      LiveIsListed(q, ttl, w.now, other);
    }
  }

  lemma VanishIsRemove(w: World, q: Queue, id: Text, ttl: int)
    requires Mirrors(w, q) && Listed(q, ttl, w.now)
    ensures var r := Perform(q, Operation(w, Vanish(id), ttl));
      Mirrors(Next(w, Vanish(id)), r) && Listed(r, ttl, w.now)
  {
    forall other | other in q.entries && w.now < q.entries[other].expiresAt ensures other in q.scores.At(w.now) {
      LiveIsListed(q, ttl, w.now, other);
    }
  }

  /** One live entry's metadata is written, in the queue as in the protocol. */
  lemma RewriteMirrors(w: World, q: Queue, w': World, r: Queue, id: Text, ttl: int)
    requires Mirrors(w, q) && Listed(q, ttl, w.now) && id in w.entries && q.Find(id, w.now).Some?
    requires id in w'.entries && w'.now == w.now && w'.entries == w.entries[id := w'.entries[id]]
    requires r == q.Put(id, w'.entries[id])
    ensures Mirrors(w', r) && Listed(r, ttl, w.now)
  {
    forall other ensures r.Find(other, w.now) == if other in w'.entries then Some(w'.entries[other]) else None {
      assert q.Find(other, w.now) == if other in w.entries then Some(w.entries[other]) else None;
    }
  }

  lemma ThawIsNomination(w: World, q: Queue, id: Text, ttl: int)
    requires Mirrors(w, q) && Listed(q, ttl, w.now)
    ensures id in w.entries ==> q.Find(id, w.now) == Some(w.entries[id])
    ensures StartThaw(q, id, ScopeOf(w, id), w.anyGrant, w.now).0
      == if id in w.entries && !Contested(w, id) then q.Put(id, w.entries[id].(isThawRequest := true)) else q
  {
    assert q.Find(id, w.now) == if id in w.entries then Some(w.entries[id]) else None;
    ContestedIsScanned(w, q, ttl, id, ScopeOf(w, id));
  }

  lemma NominateIsThaw(w: World, q: Queue, serial: nat, ttl: int)
    requires Mirrors(w, q) && Listed(q, ttl, w.now)
    ensures var r := Perform(q, Operation(w, Nominate(serial), ttl));
      Mirrors(TryStartThaw(w, serial), r) && Listed(r, ttl, w.now)
  {
    if serial in w.held {
      var id := w.held[serial].id;
      ThawIsNomination(w, q, id, ttl);
      if id in w.entries && !Contested(w, id) {
        RewriteMirrors(w, q, TryStartThaw(w, serial), q.Put(id, w.entries[id].(isThawRequest := true)), id, ttl);
      }
    }
  }

  /** The other steps write one entry's metadata, or none. */
  lemma EntryIsRewritten(w: World, q: Queue, step: Step, ttl: int)
    requires Mirrors(w, q) && Listed(q, ttl, w.now)
    requires !step.Tick? && !step.Enqueue? && !step.Nominate? && !step.Vanish?
    ensures var r := Perform(q, Operation(w, step, ttl)); Mirrors(Next(w, step), r) && Listed(r, ttl, w.now)
  {
    match step
    case ClaimEntry(id) => ClaimIsRewrite(w, q, id, ttl);
    case ConfirmClaim(serial) => ConfirmIsRewrite(w, q, serial, true, ttl);
    case LoseAnswer(serial, landed) => if landed { ConfirmIsRewrite(w, q, serial, false, ttl); }
    case Return(serial, clearMark) => ReturnIsRewrite(w, q, serial, clearMark, ttl);
    case Retry(id) => RetryIsRewrite(w, q, id, ttl);
    case _ =>
  }

  lemma ClaimIsRewrite(w: World, q: Queue, id: Text, ttl: int)
    requires Mirrors(w, q) && Listed(q, ttl, w.now)
    ensures var r := Perform(q, Operation(w, ClaimEntry(id), ttl)); Mirrors(GetNext(w, id), r) && Listed(r, ttl, w.now)
  {
    assert q.Find(id, w.now) == if id in w.entries then Some(w.entries[id]) else None;
    if id in w.entries && Claimable(w.entries[id], w.now) {
      RewriteMirrors(w, q, GetNext(w, id), RequestQueue.ClaimEntry(q, id, w.now), id, ttl);
    }
  }

  lemma ConfirmIsRewrite(w: World, q: Queue, serial: nat, answered: bool, ttl: int)
    requires Mirrors(w, q) && Listed(q, ttl, w.now)
    ensures var r := Perform(q, Confirmation(w, serial)); Mirrors(ConfirmRequest(w, serial, answered), r) && Listed(r, ttl, w.now)
  {
    if serial in w.held && w.held[serial].standing == Unsent {
      var h := w.held[serial];
      assert q.Find(h.id, w.now) == if h.id in w.entries then Some(w.entries[h.id]) else None;
      if h.id in w.entries && Confirmable(w.entries[h.id], h.stamp, w.now) {
        RewriteMirrors(w, q, ConfirmRequest(w, serial, answered), Confirm(q, h.id, h.stamp, w.now).0, h.id, ttl);
      }
    }
  }

  lemma ReturnIsRewrite(w: World, q: Queue, serial: nat, clearMark: bool, ttl: int)
    requires Mirrors(w, q) && Listed(q, ttl, w.now)
    ensures var r := Perform(q, Operation(w, Return(serial, clearMark), ttl));
      Mirrors(ReturnToQueue(w, serial, clearMark), r) && Listed(r, ttl, w.now)
  {
    if serial in w.held && w.held[serial].standing != Unsent {
      var id := w.held[serial].id;
      assert q.Find(id, w.now) == if id in w.entries then Some(w.entries[id]) else None;
      if id in w.entries {
        RewriteMirrors(w, q, ReturnToQueue(w, serial, clearMark), Perform(q, Operation(w, Return(serial, clearMark), ttl)), id, ttl);
      }
    }
  }

  lemma RetryIsRewrite(w: World, q: Queue, id: Text, ttl: int)
    requires Mirrors(w, q) && Listed(q, ttl, w.now)
    ensures var r := Perform(q, Operation(w, Retry(id), ttl)); Mirrors(AskAgain(w, id), r) && Listed(r, ttl, w.now)
  {
    assert q.Find(id, w.now) == if id in w.entries then Some(w.entries[id]) else None;
    if id in w.entries && w.PastOf(id).handed > 0 {
      RewriteMirrors(w, q, AskAgain(w, id), Update(q, id, PENDING_AGAIN, w.now), id, ttl);
    }
  }

  // ------------------------------------------------------------------ whole runs

  /** The protocol and the queue after one act, each in its own terms. */
  function Meet(w: World, q: Queue, act: Act, ttl: int): (World, Queue) {
    var aged := Aged(w, q, act.now);
    (Next(aged, act.step), Perform(q, Operation(aged, act.step, ttl)))
  }

  function MeetAll(w: World, q: Queue, acts: seq<Act>, ttl: int): (World, Queue)
    decreases |acts|
  {
    if acts == [] then (w, q)
    else
      var (w1, q1) := Meet(w, q, acts[0], ttl);
      MeetAll(w1, q1, acts[1..], ttl)
  }

  /** Acts in order of time, whose adds the queue accepts. */
  ghost predicate InOrder(w: World, q: Queue, acts: seq<Act>, ttl: int)
    decreases |acts|
  {
    acts == [] ||
    (w.now <= acts[0].now && !acts[0].step.Tick? && Accepts(Aged(w, q, acts[0].now), q, acts[0].step)
     && var (w1, q1) := Meet(w, q, acts[0], ttl); InOrder(w1, q1, acts[1..], ttl))
  }

  /** The operations the acts are. */
  function Operations(w: World, q: Queue, acts: seq<Act>, ttl: int): seq<QueueStep>
    decreases |acts|
  {
    if acts == [] then []
    else
      var op := Operation(Aged(w, q, acts[0].now), acts[0].step, ttl);
      var (w1, q1) := Meet(w, q, acts[0], ttl);
      (if op.Some? then [op.value] else []) + Operations(w1, q1, acts[1..], ttl)
  }

  lemma {:induction false} VanishAll(w: World, gone: set<Text>) returns (steps: seq<Step>)
    ensures Run(w, steps) == w.(entries := w.entries - gone)
    decreases gone
  {
    steps := [];
    if id :| id in gone {
      var rest := VanishAll(w.(entries := w.entries - {id}), gone - {id});
      assert w.entries - {id} - (gone - {id}) == w.entries - gone;
      steps := [Vanish(id)] + rest;
      assert steps[1..] == rest;
    } else {
      assert w.entries - gone == w.entries;
    }
  }

  /** The passing of time, keys expiring in it, is steps of the protocol. */
  lemma AgedIsRun(w: World, q: Queue, now: int) returns (steps: seq<Step>)
    requires w.now <= now
    ensures Run(w, steps) == Aged(w, q, now)
  {
    var gone := set id | id in w.entries && q.Find(id, now).None? :: id;
    var rest := VanishAll(w.(now := now), gone);
    assert Aged(w, q, now).entries == w.entries - gone;
    steps := [Tick(now - w.now)] + rest;
    assert steps[1..] == rest && Next(w, steps[0]) == w.(now := now);
  }

  /**
   * Whatever is done to a queue under the default lifetime, in order of time, is a run of
   * the protocol that ends with just the entries which the queue has alive.
   */
  lemma {:induction false} QueueIsProtocol(w: World, q: Queue, acts: seq<Act>, ttl: int) returns (steps: seq<Step>)
    requires Mirrors(w, q) && Listed(q, ttl, w.now) && ttl > 0 && InOrder(w, q, acts, ttl)
    ensures var (w', q') := MeetAll(w, q, acts, ttl);
      && Run(w, steps) == w' && RunQueue(q, Operations(w, q, acts, ttl)) == q'
      && Mirrors(w', q') && Listed(q', ttl, w'.now)
    decreases |acts|
  {
    steps := [];
    if acts != [] {
      var act, aged := acts[0], Aged(w, q, acts[0].now);
      var (w1, q1) := Meet(w, q, act, ttl);
      var before := AgedIsRun(w, q, act.now);
      AgedMirrors(w, q, ttl, act.now);
      StepIsOperation(aged, q, act.step, ttl);
      var after := QueueIsProtocol(w1, q1, acts[1..], ttl);
      steps := before + ([act.step] + after);
      RunJoin(w, before, [act.step] + after);
      assert ([act.step] + after)[1..] == after;
      var op, ops := Operation(aged, act.step, ttl), Operations(w1, q1, acts[1..], ttl);
      if op.Some? {
        assert ([op.value] + ops)[1..] == ops;
      } else {
        assert [] + ops == ops;
      }
    }
  }

  /** What the protocol keeps, the queue keeps: for one, that a freeze scope has one probe at a time. */
  lemma QueueProbesAreSingleFlight(now: int, anyGrant: bool, acts: seq<Act>, ttl: int, a: Text, b: Text)
    requires ttl > 0 && InOrder(Start(now, anyGrant), NO_QUEUE, acts, ttl)
    requires var (w, q) := MeetAll(Start(now, anyGrant), NO_QUEUE, acts, ttl);
      Probing(w, a) && Probing(w, b) && SameScope(w, a, b)
    ensures a == b
  {
    var steps := QueueIsProtocol(Start(now, anyGrant), NO_QUEUE, acts, ttl);
    ProbesAreSingleFlight(now, anyGrant, steps, a, b);
  }
}
