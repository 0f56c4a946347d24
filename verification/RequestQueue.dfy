/**
 * The request queue: a sorted set of scored ids, the metadata of each id, and the
 * tombstones of removed ones, under keys that expire separately.
 */
module RequestQueue {
  import opened Numbers
  import opened Buckets
  import opened MemberOrder
  import opened QueueEntry

  /** The sorted set; re-scoring an id after the set expired starts one with no expiry. */
  datatype Scores = Scores(byId: map<Text, int>, expiresAt: Option<int>)
  {
    function At(now: int): map<Text, int> {
      if expiresAt.Some? && now >= expiresAt.value then map[] else byId
    }

    function Put(id: Text, score: int, now: int): Scores {
      Scores(At(now)[id := score], if expiresAt.Some? && now >= expiresAt.value then None else expiresAt)
    }

    /** An emptied set is dropped with its expiry. */
    function Without(ids: set<Text>, now: int): Scores {
      var left := At(now) - ids;
      if left == map[] then Scores(map[], None) else Scores(left, expiresAt)
    }
  }

  datatype Queue = Queue(scores: Scores, entries: map<Text, Entry<Meta>>, tombstones: map<Text, int>)
  {
    function Find(id: Text, now: int): Option<Meta> { Live(entries, id, now) }

    /** Rewrites an entry's metadata; its key keeps its lifetime. */
    function Put(id: Text, m: Meta): Queue
      requires id in entries
    {
      this.(entries := entries[id := entries[id].(value := m)])
    }
  }

  const NO_QUEUE: Queue := Queue(Scores(map[], None), map[], map[])

  datatype AddResult = Added | NotAdded | Threw

  function Add(q: Queue, id: Text, m: Meta, ttl: int, now: int): (Queue, AddResult) {
    var score := CalculateQueueScore(m.priority, m.retries, m.timestamp);
    if score.None? then (q, Threw)
    else if id in q.tombstones && now < q.tombstones[id] then (q, NotAdded)
    else if q.Find(id, now).Some? then (q, NotAdded)
    else
      (q.(scores := Scores(q.scores.At(now)[id := score.value], Some(now + ttl * 1000)),
          entries := q.entries[id := Entry(m.(claimedAt := None), now + ttl * 1000)]), Added)
  }

  /** Whether `getNextRequest` may hand the entry out. */
  predicate Eligible(q: Queue, id: Text, skipGrants: set<string>, skipIds: set<Text>, now: int) {
    && id in q.scores.At(now) && id !in skipIds
    && q.Find(id, now).Some?
    && var m := q.Find(id, now).value;
      Claimable(m, now) && (m.grantId == "" || m.grantId !in skipGrants)
  }

  function ClaimEntry(q: Queue, id: Text, now: int): Queue
    requires id in q.entries
  {
    q.Put(id, Claim(q.entries[id].value, now))
  }

  function Confirm(q: Queue, id: Text, claimedAt: int, now: int): (Queue, bool) {
    var m := q.Find(id, now);
    if m.None? || !Confirmable(m.value, claimedAt, now) then (q, false)
    else (q.Put(id, m.value.(claimedAt := None)), true)
  }

  datatype Updates = Updates(status: Option<Status>, retries: Option<int>, priority: Option<int>, isThawRequest: Option<bool>)
  {
    function Into(m: Meta): Meta {
      var m1 := if status.Some? then WriteStatus(m, status.value) else m;
      var m2 := if retries.Some? then m1.(retries := retries.value) else m1;
      var m3 := if priority.Some? then m2.(priority := priority.value) else m2;
      if isThawRequest.Some? then m3.(isThawRequest := isThawRequest.value) else m3
    }
  }

  function Update(q: Queue, id: Text, u: Updates, now: int): Queue {
    var m := q.Find(id, now);
    if m.None? then q
    else
      var after := u.Into(m.value);
      var written := q.Put(id, after);
      if u.retries.Some? || u.priority.Some?
      then written.(scores := q.scores.Put(id, ScoreOf(after), now)) else written
  }

  function Remove(q: Queue, id: Text, tombstoneTtl: int, now: int): Queue {
    Queue(q.scores.Without({id}, now), q.entries - {id}, q.tombstones[id := now + tombstoneTtl * 1000])
  }

  predicate AnotherProbe(q: Queue, other: Text, id: Text, grantId: string, anyGrant: bool, now: int) {
    && other in q.scores.At(now) && other != id && q.Find(other, now).Some?
    && CompetingProbe(q.Find(other, now).value, grantId, anyGrant, now)
  }

  /** Marks the entry as the probe, unless another is under way in its scope. */
  function StartThaw(q: Queue, id: Text, grantId: string, anyGrant: bool, now: int): (Queue, bool) {
    if exists other :: other in q.scores.At(now) && AnotherProbe(q, other, id, grantId, anyGrant, now) then (q, false)
    else if q.Find(id, now).None? then (q, false)
    else (q.Put(id, q.Find(id, now).value.(isThawRequest := true)), true)
  }

  // ------------------------------------------------------------- the queue's order

  /** Redis's order of a sorted set: by score, then by the members' bytes. */
  predicate AtOrBefore(scores: map<Text, int>, a: Text, b: Text)
    requires a in scores && b in scores
  {
    scores[a] < scores[b] || (scores[a] == scores[b] && Before(a, b))
  }

  lemma OrderIsTotal(scores: map<Text, int>, a: Text, b: Text, c: Text)
    requires a in scores && b in scores && c in scores
    ensures AtOrBefore(scores, a, b) || AtOrBefore(scores, b, a)
    ensures AtOrBefore(scores, a, b) && AtOrBefore(scores, b, c) ==> AtOrBefore(scores, a, c)
  {
    MembersAreOrdered(a, b, c);
  }

  /** Every score is the packed score of the metadata stored beside it. */
  ghost predicate Consistent(q: Queue) {
    && (forall id :: id in q.entries ==> InEpoch(q.entries[id].value.timestamp))
    && forall id :: id in q.scores.byId && id in q.entries ==> q.scores.byId[id] == ScoreOf(q.entries[id].value)
  }

  datatype QueueStep =
    | AddStep(id: Text, meta: Meta, ttl: int, now: int)
    | ClaimStep(id: Text, now: int)
    | ConfirmStep(id: Text, claimedAt: int, now: int)
    | UpdateStep(id: Text, updates: Updates, now: int)
    | RemoveStep(id: Text, tombstoneTtl: int, now: int)
    | ThawStep(id: Text, grantId: string, anyGrant: bool, now: int)
    | SweepStep(alive: set<string>, now: int)

  /** An id whose metadata is gone, or whose owner is. */
  predicate Orphaned(q: Queue, id: Text, alive: set<string>, now: int) {
    q.Find(id, now).None? || q.Find(id, now).value.ownerId == "" || q.Find(id, now).value.ownerId !in alive
  }

  function Orphans(q: Queue, alive: set<string>, now: int): set<Text> {
    set id | id in q.scores.At(now) && Orphaned(q, id, alive, now) :: id
  }

  /** Drops the orphans of the sorted set, and their metadata. */
  function Sweep(q: Queue, alive: set<string>, now: int): Queue {
    var gone := Orphans(q, alive, now);
    q.(scores := q.scores.Without(gone, now), entries := q.entries - gone)
  }

  function ApplyQueue(q: Queue, step: QueueStep): Queue {
    match step
    case AddStep(id, m, ttl, now) => Add(q, id, m, ttl, now).0
    case ClaimStep(id, now) => if q.Find(id, now).None? then q else ClaimEntry(q, id, now)
    case ConfirmStep(id, claimedAt, now) => Confirm(q, id, claimedAt, now).0
    case UpdateStep(id, u, now) => Update(q, id, u, now)
    case RemoveStep(id, ttl, now) => Remove(q, id, ttl, now)
    case ThawStep(id, grantId, anyGrant, now) => StartThaw(q, id, grantId, anyGrant, now).0
    case SweepStep(alive, now) => Sweep(q, alive, now)
  }

  function RunQueue(q: Queue, steps: seq<QueueStep>): Queue
    decreases |steps|
  {
    if steps == [] then q else RunQueue(ApplyQueue(q, steps[0]), steps[1..])
  }

  /** Only requests made inside the score's epoch are supported. */
  predicate Supported(steps: seq<QueueStep>) {
    forall i :: 0 <= i < |steps| && steps[i].AddStep? ==> InEpoch(steps[i].meta.timestamp)
  }

  lemma ApplyConsistent(q: Queue, step: QueueStep)
    requires Consistent(q) && (step.AddStep? ==> InEpoch(step.meta.timestamp))
    ensures Consistent(ApplyQueue(q, step))
  {
    if step.AddStep? {
      AddAndUpdateAgree(step.meta.priority, step.meta.retries, step.meta.timestamp);
    }
  }

  lemma {:induction false} RunConsistent(q: Queue, steps: seq<QueueStep>)
    requires Consistent(q) && Supported(steps)
    ensures Consistent(RunQueue(q, steps))
    decreases |steps|
  {
    if steps != [] {
      ApplyConsistent(q, steps[0]);
      assert forall i :: 0 <= i < |steps[1..]| ==> steps[1..][i] == steps[i + 1];
      RunConsistent(ApplyQueue(q, steps[0]), steps[1..]);
    }
  }

  /** Nothing that may be handed out goes ahead of `id`. */
  ghost predicate First(q: Queue, id: Text, skipGrants: set<string>, skipIds: set<Text>, now: int) {
    && Eligible(q, id, skipGrants, skipIds, now)
    && forall other :: Eligible(q, other, skipGrants, skipIds, now) ==> AtOrBefore(q.scores.At(now), id, other)
  }

  /**
   * In every reachable queue, updates and re-scores included, each score is that of
   * the stored metadata and exact as a double, and the entry that is first by score is
   * first by clamped priority, then clamped retries, then arrival, then id bytes.
   */
  lemma FirstByRank(steps: seq<QueueStep>, id: Text, other: Text, skipGrants: set<string>, skipIds: set<Text>, now: int)
    requires Supported(steps)
    requires var q := RunQueue(NO_QUEUE, steps);
      First(q, id, skipGrants, skipIds, now) && Eligible(q, other, skipGrants, skipIds, now)
    ensures var q := RunQueue(NO_QUEUE, steps); var (a, b) := (q.Find(id, now).value, q.Find(other, now).value);
      && q.scores.At(now)[id] == ScoreOf(a) && 0 <= ScoreOf(a) < 9_007_199_254_740_992
      && (Outranks(a, b) || (!Outranks(b, a) && CompareBytes(Utf8(id), Utf8(other)) <= 0))
  {
    RunConsistent(NO_QUEUE, steps);
    var q := RunQueue(NO_QUEUE, steps);
    var (a, b) := (q.Find(id, now).value, q.Find(other, now).value);
    AddAndUpdateAgree(a.priority, a.retries, a.timestamp);
    ScoreIsRank(a, b);
    ScoreIsRank(b, a);
    AgreesWithBytes(id, other);
  }

  // -------------------------------------------------- a removed request stays removed

  /** Removed, its score with it, and under a mark that refuses it until `until`. */
  ghost predicate Gone(q: Queue, id: Text, until: int) {
    id !in q.entries && id !in q.scores.byId && id in q.tombstones && q.tombstones[id] >= until
  }

  /** Steps before `until`, none of which removes `id` again under a mark that ends sooner. */
  predicate GoneFor(steps: seq<QueueStep>, id: Text, until: int) {
    forall i :: 0 <= i < |steps| ==>
      && steps[i].now < until
      && (steps[i].RemoveStep? && steps[i].id == id ==> steps[i].now + steps[i].tombstoneTtl * 1000 >= until)
  }

  /**
   * Whatever follows a removal, adds that it overtook included, the request stays out of
   * the queue while its mark stands: it is not stored and nobody is handed it.
   */
  lemma {:induction false} RemovedStaysRemoved(q: Queue, steps: seq<QueueStep>, id: Text, until: int,
        skipGrants: set<string>, skipIds: set<Text>, now: int)
    requires Gone(q, id, until) && GoneFor(steps, id, until)
    ensures Gone(RunQueue(q, steps), id, until) && !Eligible(RunQueue(q, steps), id, skipGrants, skipIds, now)
    decreases |steps|
  {
    if steps != [] {
      assert Gone(ApplyQueue(q, steps[0]), id, until);
      assert forall i :: 0 <= i < |steps[1..]| ==> steps[1..][i] == steps[i + 1];
      RemovedStaysRemoved(ApplyQueue(q, steps[0]), steps[1..], id, until, skipGrants, skipIds, now);
    }
  }

  lemma RemovalMarks(q: Queue, id: Text, tombstoneTtl: int, now: int)
    ensures Gone(Remove(q, id, tombstoneTtl, now), id, now + tombstoneTtl * 1000)
  {
  }

  /** Adding what is already queued moves nothing: a repeated add is no queue jump. */
  lemma SecondAddChangesNothing(q: Queue, id: Text, m: Meta, ttl: int, now: int, again: Meta, ttlAgain: int, later: int)
    requires Add(q, id, m, ttl, now).1.Added? && now <= later < now + ttl * 1000
    ensures Add(Add(q, id, m, ttl, now).0, id, again, ttlAgain, later).0 == Add(q, id, m, ttl, now).0
  {
  }
}
