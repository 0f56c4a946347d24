/**
 * A replica's side of the completion hand-off, as the object that holds its tables.
 * Each method is one stretch of the client's code between two suspensions, and is
 * proved to be the step that `HandOff` interleaves with every other replica's.
 */
module Completions {
  import opened Numbers
  import opened HandOff

  class CompletionTables {
    const instanceId: string
    const healthCheckIntervalMs: nat
    var isController: bool
    var pendingRequestDone: map<Completion, PendingDone>
    /** Oldest first. */
    var completedRequestIds: seq<Completion>
    /** Makes concurrent flushes of one completion single-flight. */
    var completionFlushes: set<Completion>
    /** The cleanups really executing, what a flush pass may still reach, and the clock. */
    ghost var running: multiset<Completion>
    ghost var mayFlush: set<Completion>
    ghost var forwarding: Option<int>
    ghost var clock: int

    constructor (instanceId: string, healthCheckIntervalMs: nat, now: int)
      ensures State() == Joined(instanceId, now)
      ensures this.healthCheckIntervalMs == healthCheckIntervalMs
    {
      this.instanceId, this.healthCheckIntervalMs := instanceId, healthCheckIntervalMs;
      isController, pendingRequestDone, completedRequestIds, completionFlushes := false, map[], [], {};
      running, mayFlush, forwarding, clock := multiset{}, {}, None, now;
    }

    ghost function State(): Replica
      reads this
    {
      Replica(instanceId, isController, pendingRequestDone, completedRequestIds, completionFlushes, running, mayFlush, forwarding, clock)
    }

    method RememberCompleted(c: Completion)
      modifies this`completedRequestIds
      ensures completedRequestIds == Remember(old(completedRequestIds), c)
    {
      if c !in completedRequestIds {
        completedRequestIds := completedRequestIds + [c];
        if |completedRequestIds| > REMEMBERED {
          completedRequestIds := completedRequestIds[1..];
        }
      }
    }

    method StorePendingRequestDone(c: Completion, now: int)
      modifies this`pendingRequestDone
      ensures State() == HandOff.Store(old(State()), c, now, healthCheckIntervalMs)
    {
      if c in completedRequestIds {
        return;
      }
      if c !in pendingRequestDone {
        // The first retry waits one whole tick.
        pendingRequestDone := pendingRequestDone[c := PendingDone(now + healthCheckIntervalMs, 0)];
      }
    }

    /** Sent to its owner, and never to itself. */
    method AcknowledgeCompletion(c: Completion) returns (out: set<Message>)
      ensures out == Acknowledge(State(), c)
    {
      if c.ownerId == instanceId {
        return {};
      }
      return {Applied(c)};
    }

    /** Begins a cleanup, unless one of the same completion is under way. */
    method BeginFlush(c: Completion)
      modifies this`completionFlushes, this`running
      ensures State() == StartFlush(old(State()), c)
    {
      if c in completionFlushes {
        return;
      }
      completionFlushes := completionFlushes + {c};
      running := running + multiset{c};
    }

    /** A cleanup returned: it went through, or threw and is left for the next tick. */
    method FinishFlush(c: Completion, success: bool) returns (out: set<Message>)
      modifies this
      ensures success ==> (State(), out) == FlushDone(old(State()), c)
      ensures !success ==> State() == EndFlush(old(State()), c) && out == {}
    {
      out := {};
      if success {
        pendingRequestDone := pendingRequestDone - {c};
        RememberCompleted(c);
        out := AcknowledgeCompletion(c);
      }
      completionFlushes := completionFlushes - {c};
      running := running - multiset{c};
    }

    /** A completion reaches this replica: its own, or one announced by its owner. */
    method FinalizeOwnedRequest(c: Completion, now: int) returns (out: set<Message>)
      modifies this
      ensures (State(), out) == Finalize(old(State()), c, now, healthCheckIntervalMs)
    {
      out := {};
      if c in completedRequestIds {
        if isController {
          out := AcknowledgeCompletion(c);
        }
        return;
      }
      StorePendingRequestDone(c, now);
      if isController {
        mayFlush := mayFlush + {c};
        BeginFlush(c);
      }
    }

    method HandleRequestDoneApplied(c: Completion)
      modifies this
      ensures State() == HandleApplied(old(State()), c)
    {
      pendingRequestDone := pendingRequestDone - {c};
      RememberCompleted(c);
    }

    /** Walks the pending completions and keeps those this replica owns. */
    method DropRetainedCopies()
      modifies this`pendingRequestDone
      ensures State() == DropCopies(old(State()))
    {
      ghost var was := pendingRequestDone;
      var rest := pendingRequestDone.Keys;
      while rest != {}
        invariant rest <= was.Keys
        invariant pendingRequestDone == map c | c in was && (c in rest || c.ownerId == instanceId) :: was[c]
        decreases |rest|
      {
        var c :| c in rest;
        rest := rest - {c};
        if c.ownerId != instanceId {
          pendingRequestDone := pendingRequestDone - {c};
        }
      }
    }

    method UpdateRole(controller: bool)
      modifies this
      ensures State() == SetRole(old(State()), controller)
    {
      if controller == isController {
        return;
      }
      isController := controller;
      if controller {
        DropRetainedCopies();
        mayFlush := mayFlush + pendingRequestDone.Keys;
      }
    }

    method BeginForwardPass(now: int)
      modifies this
      ensures State() == BeginForward(old(State()), now)
    {
      DropRetainedCopies();
      forwarding, clock := Some(now), now;
    }

    /** One turn of the forward pass that sampled its clock at `now`. */
    method ForwardPending(c: Completion, now: int) returns (outcome: Forwarded)
      requires c in pendingRequestDone && forwarding == Some(now)
      modifies this
      ensures (State(), outcome) == ForwardOne(old(State()), c, healthCheckIntervalMs)
    {
      var pending := pendingRequestDone[c];
      if now < pending.forwardDueAt {
        return Skipped;
      }
      if pending.forwards >= MAX_COMPLETION_FORWARDS {
        pendingRequestDone := pendingRequestDone - {c};
        RememberCompleted(c);
        return GaveUp;
      }
      pendingRequestDone := pendingRequestDone[c := PendingDone(now + healthCheckIntervalMs, pending.forwards + 1)];
      return Announced;
    }
  }
}
