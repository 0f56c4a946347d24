/**
 * The completion hand-off: an owner announces each completion and keeps it until a
 * controller says it has applied it, over a network that loses, repeats and reorders
 * messages, while replicas change role and several may act as controller at once.
 */
module HandOff {
  import opened Numbers

  /** The announcements of one completion after which its owner stops. */
  const MAX_COMPLETION_FORWARDS: nat := 30

  /** How many applied completions a replica remembers. */
  const REMEMBERED: nat := 10_000

  /** One attempt's outcome; its request belongs to one replica for good. */
  datatype Completion = Completion(ownerId: string, tag: string)

  datatype PendingDone = PendingDone(forwardDueAt: int, forwards: nat)

  /**
   * One replica of a client. `flushes` are the completions whose cleanup is under
   * way, by the table that makes it single-flight, and `running` the cleanups really
   * executing; `mayFlush` what a flush pass begun as controller may still reach,
   * `forwarding` when the running forward pass sampled its clock, and `clock` the
   * latest time this replica has read.
   */
  datatype Replica = Replica(
    instanceId: string,
    controller: bool,
    pending: map<Completion, PendingDone>,
    completed: seq<Completion>,
    flushes: set<Completion>,
    running: multiset<Completion>,
    mayFlush: set<Completion>,
    forwarding: Option<int>,
    clock: int)

  datatype Message = Announce(c: Completion) | Applied(c: Completion)

  function Joined(id: string, now: int): Replica {
    Replica(id, false, map[], [], {}, multiset{}, {}, None, now)
  }

  /** Adds to the remembered completions, dropping the oldest past the limit. */
  function Remember(completed: seq<Completion>, c: Completion): seq<Completion> {
    if c in completed then completed
    else
      var grown := completed + [c];
      if |grown| > REMEMBERED then grown[1..] else grown
  }

  function Store(r: Replica, c: Completion, now: int, tick: nat): Replica {
    if c in r.completed || c in r.pending then r
    else r.(pending := r.pending[c := PendingDone(now + tick, 0)])
  }

  /** The controller's word to another replica that its completion has been applied. */
  function Acknowledge(r: Replica, c: Completion): set<Message> {
    if c.ownerId == r.instanceId then {} else {Applied(c)}
  }

  function StartFlush(r: Replica, c: Completion): Replica {
    if c in r.flushes then r
    else r.(flushes := r.flushes + {c}, running := r.running + multiset{c})
  }

  /** A completion reaches a replica: its own, or one announced by its owner. */
  function Finalize(r: Replica, c: Completion, now: int, tick: nat): (Replica, set<Message>) {
    if c in r.completed then (r, if r.controller then Acknowledge(r, c) else {})
    else
      var stored := Store(r, c, now, tick);
      (if r.controller then StartFlush(stored.(mayFlush := r.mayFlush + {c}), c) else stored, {})
  }

  function EndFlush(r: Replica, c: Completion): Replica {
    r.(flushes := r.flushes - {c}, running := r.running - multiset{c})
  }

  /** The cleanup went through. */
  function FlushDone(r: Replica, c: Completion): (Replica, set<Message>) {
    (EndFlush(r, c).(pending := r.pending - {c}, completed := Remember(r.completed, c)), Acknowledge(r, c))
  }

  /** An acknowledgement arrives. */
  function HandleApplied(r: Replica, c: Completion): Replica {
    r.(pending := r.pending - {c}, completed := Remember(r.completed, c))
  }

  /** Everything pending here that some other replica owns. */
  function DropCopies(r: Replica): Replica {
    r.(pending := map c | c in r.pending && c.ownerId == r.instanceId :: r.pending[c])
  }

  function SetRole(r: Replica, controller: bool): Replica {
    if controller == r.controller then r
    else if controller then
      var kept := DropCopies(r);
      kept.(controller := true, mayFlush := r.mayFlush + kept.pending.Keys)
    else r.(controller := false)
  }

  /** A worker's tick: drops copies, then goes through what it still holds. */
  function BeginForward(r: Replica, now: int): Replica {
    DropCopies(r).(forwarding := Some(now), clock := now)
  }

  datatype Forwarded = Skipped | GaveUp | Announced

  function ForwardOne(r: Replica, c: Completion, tick: nat): (Replica, Forwarded)
    requires c in r.pending && r.forwarding.Some?
  {
    var p, now := r.pending[c], r.forwarding.value;
    if now < p.forwardDueAt then (r, Skipped)
    else if p.forwards >= MAX_COMPLETION_FORWARDS then
      (r.(pending := r.pending - {c}, completed := Remember(r.completed, c)), GaveUp)
    else (r.(pending := r.pending[c := PendingDone(now + tick, p.forwards + 1)]), Announced)
  }

  // ------------------------------------------------------------------- the fleet

  /**
   * `sent` is every message ever published: delivering one at any time, never, or
   * again is how loss, reordering and repetition appear. `known` are the instance ids
   * ever used, which are never used again. The rest is history: completions some
   * replica's cleanup applied, and which replica's it was, those their owner has
   * reported, those it gave up on, and how often each was re-announced.
   */
  datatype Fleet = Fleet(
    tick: nat,
    known: set<string>,
    replicas: map<string, Replica>,
    sent: set<Message>,
    applied: set<Completion>,
    appliedBy: set<(string, Completion)>,
    reported: set<Completion>,
    givenUp: set<Completion>,
    announced: map<Completion, nat>)

  datatype Step =
    | Join(id: string, now: int)
    | Crash(id: string)
    /** A request ends: its owner announces it, if it can, then finalizes its copy. */
    | Complete(c: Completion, published: bool, now: int)
    | Deliver(to: string, m: Message, now: int)
    | ChangeRole(id: string, controller: bool)
    /** A controller's tick takes a snapshot of what it holds. */
    | BeginFlushPass(id: string)
    | Flush(id: string, c: Completion)
    | FlushSucceeds(id: string, c: Completion)
    | FlushFails(id: string, c: Completion)
    | BeginForwardPass(id: string, now: int)
    | Forward(id: string, c: Completion)
    | EndForwardPass(id: string)

  function Put(f: Fleet, r: Replica, out: set<Message>): Fleet {
    f.(replicas := f.replicas[r.instanceId := r], sent := f.sent + out)
  }

  function Times(f: Fleet, c: Completion): nat { if c in f.announced then f.announced[c] else 0 }

  function CompleteOwned(f: Fleet, c: Completion, published: bool, now: int): Fleet {
    if c.ownerId !in f.replicas || now < f.replicas[c.ownerId].clock then f
    else
      var (r, out) := Finalize(f.replicas[c.ownerId].(clock := now), c, now, f.tick);
      Put(f, r, if published then out + {Announce(c)} else out).(reported := f.reported + {c})
  }

  function Receive(f: Fleet, to: string, m: Message, now: int): Fleet {
    if to !in f.replicas || m !in f.sent || now < f.replicas[to].clock then f
    else
      match m
      case Announce(c) =>
        var (r, out) := Finalize(f.replicas[to].(clock := now), c, now, f.tick);
        Put(f, r, out)
      case Applied(c) =>
        // The channel is the owner's own.
        if c.ownerId != to then f else Put(f, HandleApplied(f.replicas[to], c), {})
  }

  function FinishFlush(f: Fleet, id: string, c: Completion, success: bool): Fleet {
    if id !in f.replicas || c !in f.replicas[id].running then f
    else if !success then Put(f, EndFlush(f.replicas[id], c), {})
    else
      var (r, out) := FlushDone(f.replicas[id], c);
      Put(f, r, out).(applied := f.applied + {c}, appliedBy := f.appliedBy + {(id, c)})
  }

  function ForwardPending(f: Fleet, id: string, c: Completion): Fleet {
    if id !in f.replicas || c !in f.replicas[id].pending || f.replicas[id].forwarding.None? then f
    else
      var (r, outcome) := ForwardOne(f.replicas[id], c, f.tick);
      match outcome
      case Skipped => f
      case GaveUp => Put(f, r, {}).(givenUp := f.givenUp + {c})
      case Announced => Put(f, r, {Announce(c)}).(announced := f.announced[c := Times(f, c) + 1])
  }

  function Next(f: Fleet, step: Step): Fleet {
    match step
    case Join(id, now) => if id in f.known then f else Put(f, Joined(id, now), {}).(known := f.known + {id})
    case Crash(id) => f.(replicas := f.replicas - {id})
    case Complete(c, published, now) => CompleteOwned(f, c, published, now)
    case Deliver(to, m, now) => Receive(f, to, m, now)
    case ChangeRole(id, controller) =>
      if id !in f.replicas then f else Put(f, SetRole(f.replicas[id], controller), {})
    case BeginFlushPass(id) =>
      if id !in f.replicas || !f.replicas[id].controller then f
      else
        var r := f.replicas[id];
        Put(f, r.(mayFlush := r.mayFlush + r.pending.Keys), {})
    case Flush(id, c) =>
      if id !in f.replicas || c !in f.replicas[id].mayFlush then f else Put(f, StartFlush(f.replicas[id], c), {})
    case FlushSucceeds(id, c) => FinishFlush(f, id, c, true)
    case FlushFails(id, c) => FinishFlush(f, id, c, false)
    case BeginForwardPass(id, now) =>
      if id !in f.replicas || now < f.replicas[id].clock then f else Put(f, BeginForward(f.replicas[id], now), {})
    case Forward(id, c) => ForwardPending(f, id, c)
    case EndForwardPass(id) =>
      if id !in f.replicas then f else Put(f, f.replicas[id].(forwarding := None), {})
  }

  function Run(f: Fleet, steps: seq<Step>): Fleet
    decreases |steps|
  {
    if steps == [] then f else Run(Next(f, steps[0]), steps[1..])
  }

  function Start(tick: nat): Fleet {
    Fleet(tick, {}, map[], {}, {}, {}, {}, {}, map[])
  }

  // ---------------------------------------------------- what every run keeps

  /** Cleanups are single-flight; what is remembered was applied, or given up on by its owner. */
  ghost predicate ReplicaOk(f: Fleet, r: Replica) {
    && (forall c :: r.running[c] == if c in r.flushes then 1 else 0)
    && (forall c :: c in r.completed ==> c in f.applied || (c.ownerId == r.instanceId && c in f.givenUp))
    && (r.forwarding.Some? ==> r.forwarding.value <= r.clock)
    && (forall c :: c in r.pending ==>
        // A copy taken in while a forward pass runs is never due in that pass.
        && (c.ownerId != r.instanceId && r.forwarding.Some? ==> r.pending[c].forwardDueAt > r.forwarding.value)
        && (c.ownerId == r.instanceId ==> r.pending[c].forwards <= MAX_COMPLETION_FORWARDS && r.pending[c].forwards <= Times(f, c)))
  }

  /** A reported completion of a live owner is applied, pending at its owner, or given up on. */
  ghost predicate Accounted(f: Fleet, c: Completion) {
    c in f.reported && c.ownerId in f.replicas ==>
      c in f.applied || c in f.givenUp || c in f.replicas[c.ownerId].pending
  }

  ghost predicate Sound(f: Fleet) {
    && f.tick > 0
    && f.replicas.Keys <= f.known
    && (forall c :: c in f.reported ==> c.ownerId in f.known)
    && (forall id :: id in f.replicas ==> f.replicas[id].instanceId == id && ReplicaOk(f, f.replicas[id]))
    && (forall c :: Applied(c) in f.sent ==> c in f.applied)
    && (forall p :: p in f.appliedBy ==> p.1 in f.applied && (p.1.ownerId == p.0 || Applied(p.1) in f.sent))
    && (forall c :: c in f.givenUp ==> Times(f, c) >= MAX_COMPLETION_FORWARDS)
    && (forall c :: Accounted(f, c))
  }

  lemma RememberKeeps(completed: seq<Completion>, c: Completion)
    ensures forall d :: d in Remember(completed, c) ==> d in completed || d == c
  {
  }

  /** History only grows, so what held of a replica that did not move still holds. */
  lemma OthersOk(f: Fleet, g: Fleet, r: Replica)
    requires ReplicaOk(f, r) && f.applied <= g.applied && f.givenUp <= g.givenUp
    requires forall c :: Times(f, c) <= Times(g, c)
    ensures ReplicaOk(g, r)
  {
  }

  lemma FinalizeOk(f: Fleet, r: Replica, c: Completion, now: int)
    requires ReplicaOk(f, r) && f.tick > 0 && r.clock <= now
    ensures var (r', out) := Finalize(r.(clock := now), c, now, f.tick);
      && r'.instanceId == r.instanceId && ReplicaOk(f, r')
      && (forall d :: Applied(d) in out ==> d in f.applied)
      && r.pending.Keys <= r'.pending.Keys
      && (c in r'.pending || c in f.applied || (c.ownerId == r.instanceId && c in f.givenUp))
  {
  }

  lemma FlushDoneOk(f: Fleet, g: Fleet, r: Replica, c: Completion)
    requires ReplicaOk(f, r) && c in r.running && g == f.(applied := f.applied + {c})
    ensures ReplicaOk(g, FlushDone(r, c).0)
  {
    RememberKeeps(r.completed, c);
    OthersOk(f, g, r);
  }

  lemma HandleAppliedOk(f: Fleet, r: Replica, c: Completion)
    requires ReplicaOk(f, r) && c in f.applied
    ensures ReplicaOk(f, HandleApplied(r, c))
  {
    RememberKeeps(r.completed, c);
  }

  lemma ForwardOk(f: Fleet, g: Fleet, r: Replica, c: Completion)
    requires Sound(f) && ReplicaOk(f, r) && c in r.pending && r.forwarding.Some?
    requires var outcome := ForwardOne(r, c, f.tick).1;
      && g.applied == f.applied
      && g.givenUp == (if outcome.GaveUp? then f.givenUp + {c} else f.givenUp)
      && g.announced == (if outcome.Announced? then f.announced[c := Times(f, c) + 1] else f.announced)
    ensures ReplicaOk(g, ForwardOne(r, c, f.tick).0)
    ensures forall d :: d in g.givenUp ==> Times(g, d) >= MAX_COMPLETION_FORWARDS
    ensures forall d :: Times(f, d) <= Times(g, d)
  {
    RememberKeeps(r.completed, c);
  }

  /** Replacing one replica, with history that only grew, keeps the fleet sound. */
  lemma PutSound(f: Fleet, g: Fleet, r: Replica)
    requires Sound(f) && r.instanceId in f.replicas && g.replicas == f.replicas[r.instanceId := r] && ReplicaOk(g, r)
    requires g.tick == f.tick && g.known == f.known && f.applied <= g.applied && f.givenUp <= g.givenUp
    requires forall c :: Times(f, c) <= Times(g, c)
    requires forall c :: Applied(c) in g.sent ==> c in g.applied
    requires f.sent <= g.sent
    requires forall p :: p in g.appliedBy ==>
      p in f.appliedBy || (p.1 in g.applied && (p.1.ownerId == p.0 || Applied(p.1) in g.sent))
    requires forall c :: c in g.givenUp ==> Times(g, c) >= MAX_COMPLETION_FORWARDS
    requires forall c :: c in g.reported ==>
      c in f.reported || (c.ownerId == r.instanceId && (c in r.pending || c in g.applied || c in g.givenUp))
    requires forall c: Completion :: c.ownerId == r.instanceId && c in f.replicas[r.instanceId].pending ==>
      c in r.pending || c in g.applied || c in g.givenUp
    ensures Sound(g)
  {
    forall id | id in g.replicas ensures g.replicas[id].instanceId == id && ReplicaOk(g, g.replicas[id]) {
      if id != r.instanceId { OthersOk(f, g, f.replicas[id]); }
    }
    forall c ensures Accounted(g, c) {
      assert Accounted(f, c);
    }
  }

  lemma CompleteSound(f: Fleet, c: Completion, published: bool, now: int)
    requires Sound(f)
    ensures Sound(CompleteOwned(f, c, published, now))
  {
    if c.ownerId in f.replicas && now >= f.replicas[c.ownerId].clock {
      var r := f.replicas[c.ownerId];
      FinalizeOk(f, r, c, now);
      var g := CompleteOwned(f, c, published, now);
      PutSound(f, g, Finalize(r.(clock := now), c, now, f.tick).0);
    }
  }

  lemma AnnounceSound(f: Fleet, to: string, c: Completion, now: int)
    requires Sound(f) && to in f.replicas && Announce(c) in f.sent && now >= f.replicas[to].clock
    ensures Sound(Receive(f, to, Announce(c), now))
  {
    var r := Finalize(f.replicas[to].(clock := now), c, now, f.tick).0;
    FinalizeOk(f, f.replicas[to], c, now);
    PutSound(f, Receive(f, to, Announce(c), now), r);
  }

  lemma ReceiveSound(f: Fleet, to: string, m: Message, now: int)
    requires Sound(f)
    ensures Sound(Receive(f, to, m, now))
  {
    if to in f.replicas && m in f.sent && now >= f.replicas[to].clock {
      match m
      case Announce(c) => AnnounceSound(f, to, c, now);
      case Applied(c) =>
        if c.ownerId == to {
          HandleAppliedOk(f, f.replicas[to], c);
          PutSound(f, Receive(f, to, m, now), HandleApplied(f.replicas[to], c));
        }
    }
  }

  lemma FinishFlushSound(f: Fleet, id: string, c: Completion, success: bool)
    requires Sound(f)
    ensures Sound(FinishFlush(f, id, c, success))
  {
    if id in f.replicas && c in f.replicas[id].running {
      var r, g := f.replicas[id], FinishFlush(f, id, c, success);
      if success {
        FlushDoneOk(f, f.(applied := f.applied + {c}), r, c);
        OthersOk(f.(applied := f.applied + {c}), g, FlushDone(r, c).0);
        PutSound(f, g, FlushDone(r, c).0);
      } else {
        PutSound(f, g, EndFlush(r, c));
      }
    }
  }

  /** What one turn of a forward pass does to the fleet. */
  lemma ForwardEffect(f: Fleet, id: string, c: Completion)
    requires id in f.replicas && c in f.replicas[id].pending && f.replicas[id].forwarding.Some?
    ensures
      var (r, g) := (f.replicas[id], ForwardPending(f, id, c));
      var (r', outcome) := ForwardOne(r, c, f.tick);
      && (r.instanceId == id ==> g.replicas == f.replicas[id := r']) && r'.instanceId == r.instanceId
      && g.tick == f.tick && g.known == f.known && g.applied == f.applied && g.reported == f.reported
      && f.sent <= g.sent && g.appliedBy == f.appliedBy
      && (forall d :: Applied(d) in g.sent <==> Applied(d) in f.sent)
      && g.givenUp == (if outcome.GaveUp? then f.givenUp + {c} else f.givenUp)
      && g.announced == (if outcome.Announced? then f.announced[c := Times(f, c) + 1] else f.announced)
      && forall d :: d in r.pending ==> d in r'.pending || (d == c && outcome.GaveUp?)
  {
    var r := f.replicas[id];
    assert r.instanceId == id ==> f.replicas[id := r] == f.replicas;
  }

  lemma ForwardSound(f: Fleet, id: string, c: Completion)
    requires Sound(f)
    ensures Sound(ForwardPending(f, id, c))
  {
    if id in f.replicas && c in f.replicas[id].pending && f.replicas[id].forwarding.Some? {
      var r, g := f.replicas[id], ForwardPending(f, id, c);
      ForwardEffect(f, id, c);
      ForwardOk(f, g, r, c);
      PutSound(f, g, ForwardOne(r, c, f.tick).0);
    }
  }

  predicate Local(step: Step) {
    step.ChangeRole? || step.BeginFlushPass? || step.Flush? || step.BeginForwardPass? || step.EndForwardPass?
  }

  /** The steps that touch one replica's own tables and nothing else. */
  lemma LocalEffect(f: Fleet, step: Step)
    requires Sound(f) && Local(step) && Next(f, step) != f
    ensures step.id in f.replicas && step.id in Next(f, step).replicas
    ensures var r, r' := f.replicas[step.id], Next(f, step).replicas[step.id];
      && Next(f, step) == Put(f, r', {}) && r'.instanceId == step.id && ReplicaOk(f, r')
      && forall c: Completion :: c.ownerId == step.id && c in r.pending ==> c in r'.pending
  {
    assert ReplicaOk(f, f.replicas[step.id]);
  }

  lemma LocalSound(f: Fleet, step: Step)
    requires Sound(f) && Local(step)
    ensures Sound(Next(f, step))
  {
    var g := Next(f, step);
    if g != f {
      LocalEffect(f, step);
      OthersOk(f, g, g.replicas[step.id]);
      PutSound(f, g, g.replicas[step.id]);
    }
  }

  lemma JoinSound(f: Fleet, id: string, now: int)
    requires Sound(f)
    ensures Sound(Next(f, Join(id, now)))
  {
    if id !in f.known {
      var g := Next(f, Join(id, now));
      forall other | other in f.replicas ensures ReplicaOk(g, f.replicas[other]) {
        OthersOk(f, g, f.replicas[other]);
      }
      forall c ensures Accounted(g, c) { assert Accounted(f, c); }
    }
  }

  lemma CrashSound(f: Fleet, id: string)
    requires Sound(f)
    ensures Sound(Next(f, Crash(id)))
  {
    var g := Next(f, Crash(id));
    forall other | other in g.replicas ensures ReplicaOk(g, g.replicas[other]) {
      OthersOk(f, g, f.replicas[other]);
    }
    forall c ensures Accounted(g, c) { assert Accounted(f, c); }
  }

  lemma NextSound(f: Fleet, step: Step)
    requires Sound(f)
    ensures Sound(Next(f, step))
  {
    match step
    case Join(id, now) => JoinSound(f, id, now);
    case Crash(id) => CrashSound(f, id);
    case Complete(c, published, now) => CompleteSound(f, c, published, now);
    case Deliver(to, m, now) => ReceiveSound(f, to, m, now);
    case FlushSucceeds(id, c) => FinishFlushSound(f, id, c, true);
    case FlushFails(id, c) => FinishFlushSound(f, id, c, false);
    case Forward(id, c) => ForwardSound(f, id, c);
    case _ => LocalSound(f, step);
  }

  lemma {:induction false} RunSound(f: Fleet, steps: seq<Step>)
    requires Sound(f)
    ensures Sound(Run(f, steps))
    decreases |steps|
  {
    if steps != [] {
      NextSound(f, steps[0]);
      RunSound(Next(f, steps[0]), steps[1..]);
    }
  }

  /**
   * In every run, whatever is lost, repeated, reordered or changes role: a completion
   * its live owner has reported is applied, still pending at the owner, or was given
   * up on after all its announcements. Its owner is told that it has been applied only
   * if it has been, and is told whenever another replica applied it. No replica ever
   * runs one cleanup twice at once.
   */
  lemma NoCompletionSilentlyLost(tick: nat, steps: seq<Step>, c: Completion, id: string)
    requires tick > 0
    ensures var f := Run(Start(tick), steps);
      && (c in f.reported && c.ownerId in f.replicas ==>
          || c in f.applied
          || c in f.replicas[c.ownerId].pending
          || (c in f.givenUp && Times(f, c) >= MAX_COMPLETION_FORWARDS))
      && (Applied(c) in f.sent ==> c in f.applied)
      && ((id, c) in f.appliedBy && id != c.ownerId ==> Applied(c) in f.sent)
      && (id in f.replicas ==> f.replicas[id].running[c] <= 1)
  {
    RunSound(Start(tick), steps);
    var f := Run(Start(tick), steps);
    assert Accounted(f, c);
    assert (id, c) in f.appliedBy ==> (id, c).1 in f.applied;
  }
}
