/**
 * What the hand-off comes to: how an announcement is answered and the answer ends it,
 * that a pending completion can still be applied whatever has happened before, that only
 * a replica that has been controller applies any, and how far apart announcements are.
 */
module HandOffRuns {
  import opened Numbers
  import opened HandOff

  // ------------------------------------------------------- how it comes to an end

  /**
   * A controller told again of a completion it remembers answers its owner, and does no
   * more; one it does not remember it begins to clean up, and says nothing yet.
   */
  lemma AnnouncementIsAnswered(f: Fleet, to: string, c: Completion, now: int)
    requires Sound(f) && to in f.replicas && f.replicas[to].controller
    requires Announce(c) in f.sent && f.replicas[to].clock <= now
    ensures var r, g := f.replicas[to], Next(f, Deliver(to, Announce(c), now));
      && (c in r.completed ==>
            && g.replicas[to] == r.(clock := now)
            && g.sent == if c.ownerId == to then f.sent else f.sent + {Applied(c)})
      && (c !in r.completed ==> g.sent == f.sent && g.replicas[to].running[c] == 1 && c in g.replicas[to].pending)
  {
    assert ReplicaOk(f, f.replicas[to]);
  }

  /** A replica that is not controller answers nobody and cleans up nothing: it takes in what it does not know. */
  lemma WorkerOnlyTakesIn(f: Fleet, to: string, c: Completion, now: int)
    requires Sound(f) && to in f.replicas && !f.replicas[to].controller
    requires Announce(c) in f.sent && f.replicas[to].clock <= now
    ensures var r, g := f.replicas[to], Next(f, Deliver(to, Announce(c), now));
      && g.sent == f.sent && g.replicas[to].running == r.running && g.replicas[to].completed == r.completed
      && g.replicas[to].pending.Keys == r.pending.Keys + (if c in r.completed then {} else {c})
      && forall d :: d in r.pending ==> g.replicas[to].pending[d] == r.pending[d]
  {
  }

  /** The answer ends the owner's announcing: it holds the completion no more, and will not take it in again. */
  lemma AnswerEndsIt(f: Fleet, c: Completion, now: int)
    requires Sound(f) && c.ownerId in f.replicas && Applied(c) in f.sent && f.replicas[c.ownerId].clock <= now
    ensures var r, r' := f.replicas[c.ownerId], Next(f, Deliver(c.ownerId, Applied(c), now)).replicas[c.ownerId];
      && c !in r'.pending && c in r'.completed
      && forall d :: d != c && d in r.pending ==> d in r'.pending && r'.pending[d] == r.pending[d]
  {
    RememberHolds(f.replicas[c.ownerId].completed, c);
  }

  /** Remembering takes the completion in, holds at most so many, and forgets none but the oldest. */
  lemma RememberHolds(completed: seq<Completion>, c: Completion)
    ensures c in Remember(completed, c)
    ensures |completed| <= REMEMBERED ==> |Remember(completed, c)| <= REMEMBERED
    ensures forall k :: 0 <= k < |completed| && (k > 0 || |completed| < REMEMBERED) ==> completed[k] in Remember(completed, c)
  {
    var grown := completed + [c];
    assert grown[|grown| - 1] == c;
    forall k | 0 <= k < |completed| && (k > 0 || |completed| < REMEMBERED) ensures completed[k] in Remember(completed, c) {
      assert grown[k] == completed[k];
      if |grown| > REMEMBERED {
        assert grown[1..][k - 1] == completed[k];
      }
    }
    if |grown| > REMEMBERED {
      assert grown[1..][|grown| - 2] == c;
    }
  }

  /** A cleanup under way that goes through: applied, remembered, no longer held, and its owner told. */
  lemma FlushEndsIt(f: Fleet, id: string, c: Completion)
    requires Sound(f) && id in f.replicas && c in f.replicas[id].running
    ensures var g := Next(f, FlushSucceeds(id, c));
      && id in g.replicas && g.replicas == f.replicas[id := g.replicas[id]]
      && c in g.applied && (id, c) in g.appliedBy && c in g.replicas[id].completed && c !in g.replicas[id].pending
      && c !in g.replicas[id].running && c !in g.replicas[id].flushes
      && g.sent == if c.ownerId == id then f.sent else f.sent + {Applied(c)}
  {
    assert ReplicaOk(f, f.replicas[id]);
    RememberHolds(f.replicas[id].completed, c);
  }

  /** A cleanup that failed leaves the completion held, to be tried again. */
  lemma FlushFailureKeeps(f: Fleet, id: string, c: Completion)
    requires Sound(f) && id in f.replicas && c in f.replicas[id].running
    ensures var r, g := f.replicas[id], Next(f, FlushFails(id, c));
      && id in g.replicas && g.replicas[id].pending == r.pending && g.replicas[id].completed == r.completed
      && c !in g.replicas[id].running && c !in g.replicas[id].flushes && g.sent == f.sent && g.applied == f.applied
  {
    assert ReplicaOk(f, f.replicas[id]);
  }

  /** A replica takes a role: a new controller keeps its own completions, and its flush reaches exactly those too. */
  lemma RoleIsTaken(f: Fleet, id: string, controller: bool)
    requires Sound(f) && id in f.replicas
    ensures var r, g := f.replicas[id], Next(f, ChangeRole(id, controller));
      && g.replicas.Keys == f.replicas.Keys && g.sent == f.sent && g.replicas[id].controller == controller
      && (controller && !r.controller ==>
            && (forall c: Completion :: c in g.replicas[id].pending <==> c in r.pending && c.ownerId == id)
            && g.replicas[id].mayFlush == r.mayFlush + g.replicas[id].pending.Keys)
      && g.replicas[id].completed == r.completed && g.replicas[id].running == r.running
  {
  }

  /** A controller's pass reaches all it holds. */
  lemma HeldIsReached(f: Fleet, id: string, c: Completion)
    requires Sound(f) && id in f.replicas && f.replicas[id].controller && c in f.replicas[id].pending
    ensures var g := Next(f, BeginFlushPass(id));
      Sound(g) && id in g.replicas && c in g.replicas[id].mayFlush
  {
    NextSound(f, BeginFlushPass(id));
  }

  /** What a pass reaches it cleans up, once at a time. */
  lemma ReachedIsApplied(f: Fleet, id: string, c: Completion)
    requires Sound(f) && id in f.replicas && c in f.replicas[id].mayFlush
    ensures var g := Next(Next(f, Flush(id, c)), FlushSucceeds(id, c));
      && id in g.replicas && c in g.applied && c !in g.replicas[id].pending && c in g.replicas[id].completed
      && (c.ownerId != id ==> Applied(c) in g.sent)
  {
    NextSound(f, Flush(id, c));
    assert ReplicaOk(f, f.replicas[id]);
    FlushEndsIt(Next(f, Flush(id, c)), id, c);
  }

  lemma RunFirst(f: Fleet, step: Step, rest: seq<Step>)
    ensures Run(f, [step] + rest) == Run(Next(f, step), rest)
  {
    assert ([step] + rest)[1..] == rest;
  }

  lemma RunOne(f: Fleet, step: Step)
    ensures Run(f, [step]) == Next(f, step)
  {
    assert Run(f, [step]) == Run(Next(f, step), []);
  }

  lemma RunTwo(f: Fleet, s1: Step, s2: Step)
    ensures Run(f, [s1, s2]) == Next(Next(f, s1), s2)
  {
    assert [s1, s2][1..] == [s2];
    RunOne(Next(f, s1), s2);
  }

  lemma RunFour(f: Fleet, s1: Step, s2: Step, s3: Step, s4: Step)
    ensures Run(f, [s1, s2, s3, s4]) == Next(Next(Next(Next(f, s1), s2), s3), s4)
  {
    assert [s1, s2, s3, s4] == [s1] + ([s2] + [s3, s4]);
    RunFirst(f, s1, [s2] + [s3, s4]);
    RunFirst(Next(f, s1), s2, [s3, s4]);
    RunTwo(Next(Next(f, s1), s2), s3, s4);
  }

  /** As controller a replica can apply what it holds of its own, whatever has come before. */
  lemma OwnerCanApply(f: Fleet, c: Completion)
    requires Sound(f) && c.ownerId in f.replicas && c in f.replicas[c.ownerId].pending
    ensures var id := c.ownerId;
      var g := Run(f, [ChangeRole(id, true), BeginFlushPass(id), Flush(id, c), FlushSucceeds(id, c)]);
      id in g.replicas && c in g.applied && c !in g.replicas[id].pending && c in g.replicas[id].completed
  {
    var id := c.ownerId;
    var g := Next(f, ChangeRole(id, true));
    RunFour(f, ChangeRole(id, true), BeginFlushPass(id), Flush(id, c), FlushSucceeds(id, c));
    RoleIsTaken(f, id, true);
    NextSound(f, ChangeRole(id, true));
    HeldIsReached(g, id, c);
    ReachedIsApplied(Next(g, BeginFlushPass(id)), id, c);
  }

  /** A forward pass begins with what its replica holds of its own, and samples the clock. */
  lemma ForwardBegins(f: Fleet, id: string, now: int)
    requires Sound(f) && id in f.replicas && f.replicas[id].clock <= now
    ensures var r, g := f.replicas[id], Next(f, BeginForwardPass(id, now));
      && Sound(g) && g.replicas == f.replicas[id := g.replicas[id]] && g.tick == f.tick
      && g.replicas[id].forwarding == Some(now) && g.replicas[id].clock == now
      && (forall c :: c in g.replicas[id].pending <==> c in r.pending && c.ownerId == id)
      && (forall c :: c in g.replicas[id].pending ==> g.replicas[id].pending[c] == r.pending[c])
  {
    NextSound(f, BeginForwardPass(id, now));
  }

  /** Due, and not announced too often, it is announced, and its next turn is a whole tick away. */
  lemma ForwardAnnounces(f: Fleet, id: string, c: Completion, now: int)
    requires Sound(f) && id in f.replicas && c in f.replicas[id].pending && f.replicas[id].forwarding == Some(now)
    requires var p := f.replicas[id].pending[c]; p.forwardDueAt <= now && p.forwards < MAX_COMPLETION_FORWARDS
    ensures var p, g := f.replicas[id].pending[c], Next(f, Forward(id, c));
      && g.replicas == f.replicas[id := g.replicas[id]] && Announce(c) in g.sent
      && c in g.replicas[id].pending && g.replicas[id].pending[c] == PendingDone(now + f.tick, p.forwards + 1)
      && g.replicas[id].clock == f.replicas[id].clock
  {
  }

  /** Due, and announced as often as it may be, it is given up on: held no more, and not taken in again. */
  lemma ForwardGivesUp(f: Fleet, id: string, c: Completion, now: int)
    requires Sound(f) && id in f.replicas && c in f.replicas[id].pending && f.replicas[id].forwarding == Some(now)
    requires var p := f.replicas[id].pending[c]; p.forwardDueAt <= now && p.forwards >= MAX_COMPLETION_FORWARDS
    ensures var g := Next(f, Forward(id, c));
      && id in g.replicas && g.sent == f.sent && c in g.givenUp
      && c !in g.replicas[id].pending && c in g.replicas[id].completed
  {
    RememberHolds(f.replicas[id].completed, c);
  }

  /** Due, and not announced too often: a forward pass of its owner announces it and keeps holding it. */
  lemma OwnerCanAnnounce(f: Fleet, c: Completion, now: int)
    requires Sound(f) && c.ownerId in f.replicas && c in f.replicas[c.ownerId].pending
    requires var p := f.replicas[c.ownerId].pending[c];
      f.replicas[c.ownerId].clock <= now && p.forwardDueAt <= now && p.forwards < MAX_COMPLETION_FORWARDS
    ensures var g := Next(Next(f, BeginForwardPass(c.ownerId, now)), Forward(c.ownerId, c));
      && Sound(g) && Announce(c) in g.sent && g.replicas == f.replicas[c.ownerId := g.replicas[c.ownerId]]
      && g.replicas[c.ownerId].clock == now
  {
    var h := Next(f, BeginForwardPass(c.ownerId, now));
    ForwardBegins(f, c.ownerId, now);
    ForwardAnnounces(h, c.ownerId, c, now);
    NextSound(h, Forward(c.ownerId, c));
  }

  /** No replica but `id` has changed. */
  ghost predicate OnlyMoved(f: Fleet, g: Fleet, id: string) {
    id in g.replicas && g.replicas == f.replicas[id := g.replicas[id]]
  }

  lemma MovedTwice(f: Fleet, g: Fleet, h: Fleet, id: string)
    requires OnlyMoved(f, g, id) && OnlyMoved(g, h, id)
    ensures OnlyMoved(f, h, id)
  {
  }

  lemma AnnouncementArrives(f: Fleet, id: string, c: Completion, now: int)
    requires Sound(f) && id in f.replicas && f.replicas[id].controller && c.ownerId != id
    requires Announce(c) in f.sent && f.replicas[id].clock <= now
    ensures var h := Next(f, Deliver(id, Announce(c), now));
      && Sound(h) && OnlyMoved(f, h, id)
      && (c in h.replicas[id].running || (Applied(c) in h.sent && c in h.applied))
  {
    AnnouncementIsAnswered(f, id, c, now);
    NextSound(f, Deliver(id, Announce(c), now));
    assert ReplicaOk(f, f.replicas[id]);
  }

  lemma FlushSettles(f: Fleet, id: string, c: Completion)
    requires Sound(f) && id in f.replicas && c.ownerId != id
    requires c in f.replicas[id].running || (Applied(c) in f.sent && c in f.applied)
    ensures var g := Next(f, FlushSucceeds(id, c));
      Sound(g) && Applied(c) in g.sent && c in g.applied && OnlyMoved(f, g, id)
  {
    NextSound(f, FlushSucceeds(id, c));
    if c in f.replicas[id].running {
      FlushEndsIt(f, id, c);
    }
  }

  /** Announced to a controller, it can be applied there, whether remembered, in hand, or new. */
  lemma AnnouncedCanBeApplied(f: Fleet, id: string, c: Completion, now: int)
    requires Sound(f) && id in f.replicas && f.replicas[id].controller && c.ownerId != id
    requires Announce(c) in f.sent && f.replicas[id].clock <= now
    ensures var g := Next(Next(f, Deliver(id, Announce(c), now)), FlushSucceeds(id, c));
      Sound(g) && Applied(c) in g.sent && c in g.applied && OnlyMoved(f, g, id)
  {
    var h := Next(f, Deliver(id, Announce(c), now));
    AnnouncementArrives(f, id, c, now);
    FlushSettles(h, id, c);
    MovedTwice(f, h, Next(h, FlushSucceeds(id, c)), id);
  }

  lemma AnnouncedCanEnd(f: Fleet, c: Completion, id: string, now: int)
    requires Sound(f) && c.ownerId in f.replicas && f.replicas[c.ownerId].clock <= now && Announce(c) in f.sent
    requires id in f.replicas && f.replicas[id].controller && id != c.ownerId && f.replicas[id].clock <= now
    ensures Ended(Next(Next(Next(f, Deliver(id, Announce(c), now)), FlushSucceeds(id, c)), Deliver(c.ownerId, Applied(c), now)), c)
  {
    var h := Next(Next(f, Deliver(id, Announce(c), now)), FlushSucceeds(id, c));
    AnnouncedCanBeApplied(f, id, c, now);
    assert h.replicas[c.ownerId] == f.replicas[c.ownerId];
    AnswerEndsIt(h, c, now);
  }

  /**
   * Whatever was lost, repeated, reordered or changed role before: a completion its live
   * owner still holds and has announcements left for can be applied by any controller
   * there is, after which the owner holds it no more; and the owner, as controller, can
   * apply it itself.
   */
  lemma HeldCompletionCanEnd(tick: nat, steps: seq<Step>, c: Completion, id: string, now: int)
    requires tick > 0
    ensures var f := Run(Start(tick), steps);
      c.ownerId in f.replicas && c in f.replicas[c.ownerId].pending ==>
        && (var p, own := f.replicas[c.ownerId].pending[c], c.ownerId;
            && id in f.replicas && f.replicas[id].controller && id != own && f.replicas[id].clock <= now
            && f.replicas[own].clock <= now && p.forwardDueAt <= now && p.forwards < MAX_COMPLETION_FORWARDS ==>
              Ended(Run(Run(f, [BeginForwardPass(own, now), Forward(own, c), Deliver(id, Announce(c), now), FlushSucceeds(id, c)]),
                        [Deliver(own, Applied(c), now)]), c))
        && (var own := c.ownerId;
            Ended(Run(f, [ChangeRole(own, true), BeginFlushPass(own), Flush(own, c), FlushSucceeds(own, c)]), c))
  {
    RunSound(Start(tick), steps);
    var f := Run(Start(tick), steps);
    var own := c.ownerId;
    if own in f.replicas && c in f.replicas[own].pending {
      OwnerCanApply(f, c);
      var p := f.replicas[own].pending[c];
      if && id in f.replicas && f.replicas[id].controller && id != own && f.replicas[id].clock <= now
         && f.replicas[own].clock <= now && p.forwardDueAt <= now && p.forwards < MAX_COMPLETION_FORWARDS
      {
        ControllerEndsIt(f, c, id, now);
      }
    }
  }

  /** Applied, and its live owner holds it no more and remembers it. */
  ghost predicate Ended(f: Fleet, c: Completion) {
    && c in f.applied && c.ownerId in f.replicas
    && c !in f.replicas[c.ownerId].pending && c in f.replicas[c.ownerId].completed
  }

  lemma ControllerEndsIt(f: Fleet, c: Completion, id: string, now: int)
    requires Sound(f) && c.ownerId in f.replicas && c in f.replicas[c.ownerId].pending
    requires var p := f.replicas[c.ownerId].pending[c];
      f.replicas[c.ownerId].clock <= now && p.forwardDueAt <= now && p.forwards < MAX_COMPLETION_FORWARDS
    requires id in f.replicas && f.replicas[id].controller && id != c.ownerId && f.replicas[id].clock <= now
    ensures var own := c.ownerId;
      Ended(Run(Run(f, [BeginForwardPass(own, now), Forward(own, c), Deliver(id, Announce(c), now), FlushSucceeds(id, c)]),
                [Deliver(own, Applied(c), now)]), c)
  {
    var own := c.ownerId;
    var g := Next(Next(f, BeginForwardPass(own, now)), Forward(own, c));
    RunFour(f, BeginForwardPass(own, now), Forward(own, c), Deliver(id, Announce(c), now), FlushSucceeds(id, c));
    OwnerCanAnnounce(f, c, now);
    AnnouncedCanEnd(g, c, id, now);
    RunOne(Next(Next(g, Deliver(id, Announce(c), now)), FlushSucceeds(id, c)), Deliver(own, Applied(c), now));
  }

  // --------------------------------------------- how far apart announcements are

  /** No forward pass of the owner begun before `due` re-announces the completion. */
  ghost predicate Quiet(f: Fleet, c: Completion, due: int) {
    && c.ownerId in f.known
    && (c.ownerId in f.replicas ==>
          var r := f.replicas[c.ownerId];
          && due <= r.clock + f.tick
          && (r.forwarding.Some? ==> r.forwarding.value < due)
          && (c in r.pending ==> due <= r.pending[c].forwardDueAt))
  }

  predicate BeginsBefore(step: Step, id: string, due: int) {
    step.BeginForwardPass? && step.id == id ==> step.now < due
  }

  lemma StaysQuiet(f: Fleet, c: Completion, due: int, step: Step)
    requires Sound(f) && Quiet(f, c, due) && BeginsBefore(step, c.ownerId, due)
    ensures Quiet(Next(f, step), c, due) && HandOff.Times(Next(f, step), c) == HandOff.Times(f, c)
  {
    match step
    case Forward(id, d) => ForwardQuiets(f, c, due, id, d);
    case Complete(d, published, now) => FinalizeQuiets(f, c, due, d.ownerId, d, now);
    case Deliver(to, m, now) =>
      if m.Announce? {
        FinalizeQuiets(f, c, due, to, m.c, now);
      } else {
        OthersQuiet(f, c, due, step);
      }
    case _ => OthersQuiet(f, c, due, step);
  }

  /** Only the owner's own passes announce it: a copy is never due in a pass of another replica. */
  lemma ForwardQuiets(f: Fleet, c: Completion, due: int, id: string, d: Completion)
    requires Sound(f) && Quiet(f, c, due)
    ensures Quiet(Next(f, Forward(id, d)), c, due)
    ensures HandOff.Times(Next(f, Forward(id, d)), c) == HandOff.Times(f, c)
  {
    if id in f.replicas && d in f.replicas[id].pending && f.replicas[id].forwarding.Some? {
      ForwardEffect(f, id, d);
      assert ReplicaOk(f, f.replicas[id]);
    }
  }

  /** Every replica is filed under its own id. */
  ghost predicate Filed(f: Fleet) { forall id :: id in f.replicas ==> f.replicas[id].instanceId == id }

  lemma OthersQuiet(f: Fleet, c: Completion, due: int, step: Step)
    requires Filed(f) && Quiet(f, c, due) && BeginsBefore(step, c.ownerId, due)
    requires !step.Forward? && !step.Complete? && !(step.Deliver? && step.m.Announce?)
    ensures Quiet(Next(f, step), c, due) && HandOff.Times(Next(f, step), c) == HandOff.Times(f, c)
  {
    if Local(step) {
      LocalQuiet(f, c, due, step);
    } else if step.FlushSucceeds? || step.FlushFails? {
      FlushQuiet(f, c, due, step.id, step.c, step.FlushSucceeds?);
    }
  }

  lemma LocalQuiet(f: Fleet, c: Completion, due: int, step: Step)
    requires Filed(f) && Quiet(f, c, due) && BeginsBefore(step, c.ownerId, due) && Local(step)
    ensures Quiet(Next(f, step), c, due) && HandOff.Times(Next(f, step), c) == HandOff.Times(f, c)
  {
  }

  lemma FlushQuiet(f: Fleet, c: Completion, due: int, id: string, d: Completion, success: bool)
    requires Filed(f) && Quiet(f, c, due)
    ensures Quiet(FinishFlush(f, id, d, success), c, due)
    ensures HandOff.Times(FinishFlush(f, id, d, success), c) == HandOff.Times(f, c)
  {
  }

  lemma FinalizeQuiets(f: Fleet, c: Completion, due: int, id: string, d: Completion, now: int)
    requires Sound(f) && Quiet(f, c, due)
    ensures id in f.replicas && f.replicas[id].clock <= now ==>
      var r := Finalize(f.replicas[id].(clock := now), d, now, f.tick).0;
      && r.instanceId == id
      && (id == c.ownerId ==>
            && due <= r.clock + f.tick && r.forwarding == f.replicas[id].forwarding
            && (c in r.pending ==> due <= r.pending[c].forwardDueAt))
  {
  }

  lemma {:induction false} RunStaysQuiet(f: Fleet, c: Completion, due: int, steps: seq<Step>)
    requires Sound(f) && Quiet(f, c, due) && forall k :: 0 <= k < |steps| ==> BeginsBefore(steps[k], c.ownerId, due)
    ensures HandOff.Times(Run(f, steps), c) == HandOff.Times(f, c)
    decreases |steps|
  {
    if steps != [] {
      StaysQuiet(f, c, due, steps[0]);
      NextSound(f, steps[0]);
      RunStaysQuiet(Next(f, steps[0]), c, due, steps[1..]);
    }
  }

  /** The owner takes the completion in at `since`. */
  ghost predicate TakenIn(f: Fleet, step: Step, c: Completion, since: int) {
    && step.Complete? && step.c == c && step.now == since
    && c.ownerId in f.replicas && f.replicas[c.ownerId].clock <= since
    && c !in f.replicas[c.ownerId].pending && c !in f.replicas[c.ownerId].completed
  }

  /** A forward pass of the owner that sampled its clock at `since` re-announces the completion. */
  ghost predicate ReAnnounced(f: Fleet, step: Step, c: Completion, since: int) {
    && step == Forward(c.ownerId, c)
    && c.ownerId in f.replicas && f.replicas[c.ownerId].forwarding == Some(since)
    && HandOff.Times(Next(f, step), c) == HandOff.Times(f, c) + 1
  }

  lemma NowQuiet(f: Fleet, step: Step, c: Completion, since: int)
    requires Sound(f) && (TakenIn(f, step, c, since) || ReAnnounced(f, step, c, since))
    ensures Quiet(Next(f, step), c, since + f.tick)
  {
    assert ReplicaOk(f, f.replicas[c.ownerId]);
  }

  /**
   * In every run: once its owner has taken a completion in, or re-announced it, it is not
   * re-announced until a forward pass of the owner begun at least one whole tick later.
   */
  lemma AnnouncementsAreATickApart(tick: nat, steps: seq<Step>, step: Step, rest: seq<Step>, c: Completion, since: int)
    requires tick > 0
    requires var f := Run(Start(tick), steps); TakenIn(f, step, c, since) || ReAnnounced(f, step, c, since)
    requires forall k :: 0 <= k < |rest| ==> BeginsBefore(rest[k], c.ownerId, since + tick)
    ensures var g := Next(Run(Start(tick), steps), step);
      HandOff.Times(Run(g, rest), c) == HandOff.Times(g, c)
  {
    var f := Run(Start(tick), steps);
    RunSound(Start(tick), steps);
    TickStays(Start(tick), steps);
    NowQuiet(f, step, c, since);
    NextSound(f, step);
    RunStaysQuiet(Next(f, step), c, since + tick, rest);
  }

  lemma {:induction false} TickStays(f: Fleet, steps: seq<Step>)
    ensures Run(f, steps).tick == f.tick
    decreases |steps|
  {
    if steps != [] {
      assert Next(f, steps[0]).tick == f.tick;
      TickStays(Next(f, steps[0]), steps[1..]);
    }
  }

  // -------------------------------------------------- only a controller applies

  /** The replica, if it lives, has begun no cleanup and may begin none. */
  ghost predicate Idle(f: Fleet, id: string) {
    && (forall c :: (id, c) !in f.appliedBy)
    && (id in f.replicas ==>
          var r := f.replicas[id];
          !r.controller && r.mayFlush == {} && r.running == multiset{})
  }

  lemma StaysIdle(f: Fleet, step: Step, id: string)
    requires Filed(f) && Idle(f, id) && step != ChangeRole(id, true)
    ensures Idle(Next(f, step), id)
  {
    match step
    case Complete(c, published, now) => ArrivalIdle(f, c.ownerId, c, now);
    case Deliver(to, m, now) => ArrivalIdle(f, to, m.c, now);
    case Forward(at, c) =>
    case FlushSucceeds(at, c) =>
    case FlushFails(at, c) =>
    case _ => LocalIdle(f, step, id);
  }

  lemma LocalIdle(f: Fleet, step: Step, id: string)
    requires Filed(f) && Idle(f, id) && step != ChangeRole(id, true) && (Local(step) || step.Join? || step.Crash?)
    ensures Idle(Next(f, step), id)
  {
  }

  lemma ArrivalIdle(f: Fleet, at: string, c: Completion, now: int)
    requires Filed(f)
    ensures at in f.replicas ==>
      var r, r' := f.replicas[at], Finalize(f.replicas[at].(clock := now), c, now, f.tick).0;
      && r'.instanceId == at && r'.controller == r.controller
      && (!r.controller ==> r'.mayFlush == r.mayFlush && r'.running == r.running)
  {
  }

  /** In every run, whatever it is sent: a replica that was never controller applied no completion. */
  lemma {:induction false} OnlyControllersApply(f: Fleet, steps: seq<Step>, id: string)
    requires Sound(f) && Idle(f, id) && ChangeRole(id, true) !in steps
    ensures Idle(Run(f, steps), id)
    decreases |steps|
  {
    if steps != [] {
      StaysIdle(f, steps[0], id);
      NextSound(f, steps[0]);
      OnlyControllersApply(Next(f, steps[0]), steps[1..], id);
    }
  }

  lemma WorkersApplyNothing(tick: nat, steps: seq<Step>, id: string, c: Completion)
    requires tick > 0 && ChangeRole(id, true) !in steps
    ensures (id, c) !in Run(Start(tick), steps).appliedBy
  {
    OnlyControllersApply(Start(tick), steps, id);
  }
}
