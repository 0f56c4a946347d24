/**
 * One probe at a time: while a freeze thaws, no two entries of one scope are probes at
 * once, across lapses, re-claims, stale claimers and failed calls. The store's own marks
 * show as much exactly as long as no step leaves a mark on a pending entry.
 */
module Probes {
  import opened Numbers
  import opened MemberOrder
  import opened QueueEntry
  import opened Dispatch

  /**
   * The entry is a probe in flight or about to be: in progress and marked by a
   * nomination made under its latest claim, which is confirmed or has not lapsed.
   */
  ghost predicate Probing(w: World, id: Text) {
    && id in w.entries && w.PastOf(id).nominated == w.PastOf(id).latest
    && w.entries[id].status == InProgress && w.entries[id].isThawRequest
    && !ClaimLapsed(w.entries[id].claimedAt, w.now)
  }

  /** One freeze scope: the client's, or with isolated grants each grant's own. */
  predicate SameScope(w: World, a: Text, b: Text)
    requires a in w.entries && b in w.entries
  {
    w.anyGrant || w.entries[a].grantId == w.entries[b].grantId
  }

  ghost predicate SingleFlight(w: World) {
    forall a, b :: Probing(w, a) && Probing(w, b) && a != b ==> !SameScope(w, a, b)
  }

  /** A new claim is nobody's nomination yet. */
  lemma ClaimProbing(w: World, claimed: Text, id: Text)
    requires SingleFlight(w) && Orderly(w) && Probing(GetNext(w, claimed), id)
    ensures Probing(w, id) && w.entries[id].grantId == GetNext(w, claimed).entries[id].grantId
  {
    assert EntryOk(w, claimed);
  }

  /** The strict lease: only an unlapsed claim is confirmed, so no lapsed probe revives. */
  lemma ConfirmProbing(w: World, serial: nat, answered: bool, id: Text)
    requires Probing(ConfirmRequest(w, serial, answered), id)
    ensures Probing(w, id) && w.entries[id].grantId == ConfirmRequest(w, serial, answered).entries[id].grantId
  {
  }

  lemma ReturnProbing(w: World, serial: nat, clearMark: bool, id: Text)
    requires Probing(ReturnToQueue(w, serial, clearMark), id)
    ensures Probing(w, id) && w.entries[id] == ReturnToQueue(w, serial, clearMark).entries[id]
  {
  }

  /** Only a nomination that found no competitor makes a probe of an entry. */
  lemma NominateProbing(w: World, serial: nat, id: Text)
    requires Probing(TryStartThaw(w, serial), id)
    ensures id in w.entries && w.entries[id].grantId == TryStartThaw(w, serial).entries[id].grantId
    ensures Probing(w, id) || (serial in w.held && w.held[serial].id == id && !Contested(w, id))
  {
  }

  lemma ProbingBefore(w: World, step: Step, id: Text)
    requires Orderly(w) && SingleFlight(w) && Probing(Next(w, step), id)
    ensures id in w.entries && w.entries[id].grantId == Next(w, step).entries[id].grantId
    ensures Probing(w, id)
      || (step.Nominate? && step.serial in w.held && w.held[step.serial].id == id && !Contested(w, id))
  {
    match step
    case ClaimEntry(claimed) => ClaimProbing(w, claimed, id);
    case Nominate(serial) => NominateProbing(w, serial, id);
    case ConfirmClaim(serial) => ConfirmProbing(w, serial, true, id);
    case LoseAnswer(serial, landed) => if landed { ConfirmProbing(w, serial, false, id); }
    case Return(serial, clearMark) => ReturnProbing(w, serial, clearMark, id);
    case Enqueue(added, _) => assert EntryOk(w, added);
    case _ =>
  }

  lemma NextSingleFlight(w: World, step: Step)
    requires Orderly(w) && SingleFlight(w)
    ensures SingleFlight(Next(w, step))
  {
    var w' := Next(w, step);
    forall a, b | Probing(w', a) && Probing(w', b) && a != b ensures !SameScope(w', a, b) {
      ProbesApart(w, step, a, b);
    }
  }

  lemma ProbesApart(w: World, step: Step, a: Text, b: Text)
    requires Orderly(w) && SingleFlight(w) && a != b
    requires Probing(Next(w, step), a) && Probing(Next(w, step), b)
    ensures !SameScope(Next(w, step), a, b)
  {
    ProbingBefore(w, step, a);
    ProbingBefore(w, step, b);
    assert !SameScope(w, a, b) by {
      if !Probing(w, a) {
        assert !Competes(w, b, a, w.entries[a].grantId);
      } else if !Probing(w, b) {
        assert !Competes(w, a, b, w.entries[b].grantId);
      }
    }
  }

  lemma {:induction false} RunSingleFlight(w: World, steps: seq<Step>)
    requires Orderly(w) && SingleFlight(w)
    ensures SingleFlight(Run(w, steps))
    decreases |steps|
  {
    if steps != [] {
      NextOrderly(w, steps[0]);
      NextSingleFlight(w, steps[0]);
      RunSingleFlight(Next(w, steps[0]), steps[1..]);
    }
  }

  /**
   * In every run, across lapses, re-claims and stale claimers, no two entries of one
   * freeze scope are ever probes at once; so no two are ever both confirmed as
   * probes and in flight.
   */
  lemma ProbesAreSingleFlight(now: int, anyGrant: bool, steps: seq<Step>, a: Text, b: Text)
    requires var w := Run(Start(now, anyGrant), steps); Probing(w, a) && Probing(w, b) && SameScope(w, a, b)
    ensures a == b
  {
    RunSingleFlight(Start(now, anyGrant), steps);
  }

  // ------------------------------------------------------- what the marks alone show

  /** What the store itself shows as a probe under way. */
  predicate ShownAsProbe(w: World, id: Text) {
    && id in w.entries && w.entries[id].status == InProgress && w.entries[id].isThawRequest
    && !ClaimLapsed(w.entries[id].claimedAt, w.now)
  }

  /**
   * A step after which an entry is pending and marked: the retry of a marked request, a
   * return that keeps the mark, a stale nomination of a pending entry, or a marked add.
   */
  predicate LeavesMark(w: World, step: Step) {
    match step
    case Enqueue(id, meta) => Addable(w, id, meta) && meta.isThawRequest
    case Retry(id) => id in w.entries && w.PastOf(id).handed > 0 && w.entries[id].isThawRequest
    case Return(serial, clearMark) =>
      && !clearMark && serial in w.held && w.held[serial].standing != Unsent
      && w.held[serial].id in w.entries && w.entries[w.held[serial].id].isThawRequest
    case Nominate(serial) =>
      && serial in w.held && w.held[serial].id in w.entries
      && w.entries[w.held[serial].id].status == Pending && !Contested(w, w.held[serial].id)
    case _ => false
  }

  predicate MarkedPending(w: World, id: Text) {
    id in w.entries && w.entries[id].status == Pending && w.entries[id].isThawRequest
  }

  ghost predicate NoMarkedPending(w: World) {
    forall id :: !MarkedPending(w, id)
  }

  /** Those steps, and no others, mark a pending entry where there was none. */
  lemma LeavesMarkExactly(w: World, step: Step)
    requires NoMarkedPending(w)
    ensures LeavesMark(w, step) <==> !NoMarkedPending(Next(w, step))
  {
    if LeavesMark(w, step) {
      assert MarkedPending(Next(w, step), MarkedBy(w, step));
    } else {
      forall id ensures !MarkedPending(Next(w, step), id) {
        assert !MarkedPending(w, id);
      }
    }
  }

  function MarkedBy(w: World, step: Step): Text
    requires LeavesMark(w, step)
  {
    match step
    case Enqueue(id, _) => id
    case Retry(id) => id
    case Return(serial, _) => w.held[serial].id
    case Nominate(serial) => w.held[serial].id
  }

  /** A run none of whose steps leaves a mark. */
  ghost predicate Clean(w: World, steps: seq<Step>)
    decreases |steps|
  {
    steps == [] || (!LeavesMark(w, steps[0]) && Clean(Next(w, steps[0]), steps[1..]))
  }

  ghost predicate MarksAreNominations(w: World) {
    forall id :: id in w.entries && w.entries[id].status == InProgress && w.entries[id].isThawRequest ==>
      w.PastOf(id).nominated == w.PastOf(id).latest
  }

  /** A lapsed claim's mark lapses with it, so a mark is always the latest claim's own. */
  lemma NextMarks(w: World, step: Step)
    requires NoMarkedPending(w) && MarksAreNominations(w)
    ensures MarksAreNominations(Next(w, step))
  {
    var w' := Next(w, step);
    forall id | id in w'.entries && w'.entries[id].status == InProgress && w'.entries[id].isThawRequest
      ensures w'.PastOf(id).nominated == w'.PastOf(id).latest
    {
      MarkOfOne(w, step, id);
    }
  }

  lemma MarkOfOne(w: World, step: Step, id: Text)
    requires NoMarkedPending(w) && MarksAreNominations(w)
    requires var w' := Next(w, step); id in w'.entries && w'.entries[id].status == InProgress && w'.entries[id].isThawRequest
    ensures Next(w, step).PastOf(id).nominated == Next(w, step).PastOf(id).latest
  {
    assert !MarkedPending(w, id);
  }

  lemma {:induction false} RunMarks(w: World, steps: seq<Step>)
    requires NoMarkedPending(w) && MarksAreNominations(w) && Clean(w, steps)
    ensures NoMarkedPending(Run(w, steps)) && MarksAreNominations(Run(w, steps))
    decreases |steps|
  {
    if steps != [] {
      LeavesMarkExactly(w, steps[0]);
      NextMarks(w, steps[0]);
      RunMarks(Next(w, steps[0]), steps[1..]);
    }
  }

  /** Two entries of one scope that the store shows as probes at once. */
  predicate ShowsTwo(w: World, a: Text, b: Text) {
    a != b && ShownAsProbe(w, a) && ShownAsProbe(w, b) && SameScope(w, a, b)
  }

  /** As long as no step leaves a mark, the store never shows two probes in one scope. */
  lemma StoredProbesAreSingleFlight(now: int, anyGrant: bool, steps: seq<Step>, a: Text, b: Text)
    requires Clean(Start(now, anyGrant), steps)
    ensures !ShowsTwo(Run(Start(now, anyGrant), steps), a, b)
  {
    RunMarks(Start(now, anyGrant), steps);
    RunSingleFlight(Start(now, anyGrant), steps);
  }

  // ----------------------------------------------------- and a mark left shows two

  /** An unmarked newcomer in the scope of `id`. */
  function Newcomer(w: World, id: Text): Meta
    requires id in w.entries
  {
    w.entries[id].(status := Pending, claimedAt := None, isThawRequest := false)
  }

  /** A newcomer is queued, claimed and nominated, and then the marked entry is claimed. */
  function Beside(w: World, marked: Text, unused: Text): seq<Step>
    requires marked in w.entries
  {
    [Enqueue(unused, Newcomer(w, marked)), ClaimEntry(unused), Nominate(w.serial + 1), ClaimEntry(marked)]
  }

  /** Whether a probe of the entry's scope is already shown. */
  ghost predicate ProbeShown(w: World, id: Text) {
    id in w.entries && exists other :: other != id && ShownAsProbe(w, other) && SameScope(w, other, id)
  }

  lemma NewcomerIsNominated(w: World, marked: Text, unused: Text)
    requires MarkedPending(w, marked) && unused !in w.entries && unused !in w.past && !ProbeShown(w, marked)
    ensures var w3 := TryStartThaw(GetNext(AddRequest(w, unused, Newcomer(w, marked)), unused), w.serial + 1);
      ShownAsProbe(w3, unused) && MarkedPending(w3, marked) && SameScope(w3, unused, marked)
      && w3.now == w.now && w3.anyGrant == w.anyGrant
  {
    var w1 := AddRequest(w, unused, Newcomer(w, marked));
    var w2 := GetNext(w1, unused);
    assert w2.held[w.serial + 1] == Held(unused, w.now, Unsent);
    if Contested(w2, unused) {
      var other :| other in w2.entries && Competes(w2, other, unused, w2.entries[unused].grantId);
      assert ShownAsProbe(w, other) && SameScope(w, other, marked);
    }
  }

  lemma ClaimShowsMark(w: World, marked: Text, other: Text)
    requires MarkedPending(w, marked) && other != marked && ShownAsProbe(w, other) && SameScope(w, other, marked)
    ensures ShowsTwo(GetNext(w, marked), other, marked)
  {
  }

  lemma BesideShowsTwo(w: World, marked: Text, unused: Text)
    requires MarkedPending(w, marked) && unused !in w.entries && unused !in w.past && !ProbeShown(w, marked)
    ensures Clean(w, Beside(w, marked, unused)) && ShowsTwo(Run(w, Beside(w, marked, unused)), unused, marked)
  {
    var w1 := AddRequest(w, unused, Newcomer(w, marked));
    var w2 := GetNext(w1, unused);
    assert w2.entries[unused].status == InProgress && w2.held[w.serial + 1].id == unused;
    var w3 := TryStartThaw(w2, w.serial + 1);
    NewcomerIsNominated(w, marked, unused);
    ClaimShowsMark(w3, marked, unused);
    FourStepsRun(w, Beside(w, marked, unused));
  }

  /**
   * From any world with a marked pending entry, and with any id never used, some steps
   * that leave no further mark end with two probes of one scope shown.
   */
  lemma MarkShowsTwo(w: World, marked: Text, unused: Text) returns (steps: seq<Step>, other: Text)
    requires MarkedPending(w, marked) && unused !in w.entries && unused !in w.past
    ensures Clean(w, steps) && ShowsTwo(Run(w, steps), other, marked)
  {
    if ProbeShown(w, marked) {
      other :| other != marked && ShownAsProbe(w, other) && SameScope(w, other, marked);
      ClaimShowsMark(w, marked, other);
      steps := [ClaimEntry(marked)];
      assert steps[1..] == [];
    } else {
      BesideShowsTwo(w, marked, unused);
      other, steps := unused, Beside(w, marked, unused);
    }
  }

  lemma FourStepsRun(w: World, s: seq<Step>)
    requires |s| == 4
    ensures var w1 := Next(w, s[0]); var w2 := Next(w1, s[1]); var w3 := Next(w2, s[2]);
      && Run(w, s) == Next(w3, s[3])
      && (!LeavesMark(w, s[0]) && !LeavesMark(w1, s[1]) && !LeavesMark(w2, s[2]) && !LeavesMark(w3, s[3]) ==> Clean(w, s))
  {
    var w1 := Next(w, s[0]);
    var w2 := Next(w1, s[1]);
    assert s[1..][1..] == s[2..] && s[2..][1..] == s[3..] && s[3..][1..] == [];
    assert Run(Next(w2, s[2]), s[3..]) == Next(Next(w2, s[2]), s[3]);
    assert Run(w2, s[2..]) == Run(Next(w2, s[2]), s[3..]) && Run(w1, s[1..]) == Run(w2, s[2..]);
    assert Clean(w2, s[2..]) == (!LeavesMark(w2, s[2]) && Clean(Next(w2, s[2]), s[3..]));
    assert Clean(w1, s[1..]) == (!LeavesMark(w1, s[1]) && Clean(w2, s[2..]));
  }

  /** Ids never run out: one longer than all that are taken. */
  lemma {:induction false} UnusedId(taken: set<Text>) returns (unused: Text)
    ensures unused !in taken
    ensures forall id :: id in taken ==> |id| < |unused|
    decreases taken
  {
    unused := [];
    if id :| id in taken {
      var longer := UnusedId(taken - {id});
      unused := (if |id| < |longer| then longer else id) + [0];
    }
  }

  /** Two probes are shown after some steps that leave no further mark. */
  ghost predicate CanShowTwo(w: World) {
    exists steps, a, b :: Clean(w, steps) && ShowsTwo(Run(w, steps), a, b)
  }

  /**
   * The condition is exact. After any clean run, a step can be followed by two shown
   * probes if and only if it leaves a mark on a pending entry.
   */
  lemma MarkLeftIsTheWholeDifference(now: int, anyGrant: bool, before: seq<Step>, step: Step)
    requires Clean(Start(now, anyGrant), before)
    ensures var w := Run(Start(now, anyGrant), before);
      CanShowTwo(Next(w, step)) <==> LeavesMark(w, step)
  {
    var w := Run(Start(now, anyGrant), before);
    RunMarks(Start(now, anyGrant), before);
    RunOrderly(Start(now, anyGrant), before);
    RunSingleFlight(Start(now, anyGrant), before);
    LeavesMarkExactly(w, step);
    if LeavesMark(w, step) {
      var unused := UnusedId(Next(w, step).entries.Keys + Next(w, step).past.Keys);
      var steps, other := MarkShowsTwo(Next(w, step), MarkedBy(w, step), unused);
      assert CanShowTwo(Next(w, step));
    } else {
      NextMarks(w, step);
      NextOrderly(w, step);
      NextSingleFlight(w, step);
      forall steps, a, b | Clean(Next(w, step), steps) ensures !ShowsTwo(Run(Next(w, step), steps), a, b) {
        RunMarks(Next(w, step), steps);
        RunSingleFlight(Next(w, step), steps);
      }
    }
  }

  /** A probe that goes out and that its owner then retries. */
  function RetriedProbe(id: Text, meta: Meta): seq<Step> {
    [Enqueue(id, meta), ClaimEntry(id), Nominate(1), ConfirmClaim(1)] + [HandOver(1, true), Retry(id)]
  }

  lemma ProbeGoesOut(id: Text, meta: Meta)
    requires meta.status == Pending && meta.claimedAt.None? && !meta.isThawRequest
    ensures var w := ConfirmRequest(TryStartThaw(GetNext(AddRequest(Start(0, true), id, meta), id), 1), 1, true);
      && w.held == map[1 := Held(id, 0, Granted)]
      && id in w.entries && Dispatched(w.entries[id]) && w.entries[id].isThawRequest
  {
    var w2 := GetNext(AddRequest(Start(0, true), id, meta), id);
    assert w2.held == map[1 := Held(id, 0, Unsent)] && !Contested(w2, id);
  }

  lemma RetryKeepsMark(w: World, id: Text)
    requires w.held == map[1 := Held(id, 0, Granted)]
    requires id in w.entries && Dispatched(w.entries[id]) && w.entries[id].isThawRequest
    ensures MarkedPending(Next(Next(w, HandOver(1, true)), Retry(id)), id)
  {
  }

  /** Such a step is reached by any request: the retry of a probe leaves its mark on the entry. */
  lemma RetriedProbeLeavesMark(id: Text, meta: Meta)
    requires meta.status == Pending && meta.claimedAt.None? && !meta.isThawRequest
    ensures MarkedPending(Run(Start(0, true), RetriedProbe(id, meta)), id)
  {
    var first := [Enqueue(id, meta), ClaimEntry(id), Nominate(1), ConfirmClaim(1)];
    var second: seq<Step> := [HandOver(1, true), Retry(id)];
    var w := Run(Start(0, true), first);
    FourStepsRun(Start(0, true), first);
    ProbeGoesOut(id, meta);
    RetryKeepsMark(w, id);
    TwoStepsRun(w, second);
    RunJoin(Start(0, true), first, second);
  }

  /** So for any request there is a run of the protocol that ends with two probes shown. */
  lemma RetriedProbeShowsTwo(id: Text, meta: Meta) returns (steps: seq<Step>, other: Text)
    requires meta.status == Pending && meta.claimedAt.None? && !meta.isThawRequest
    ensures ShowsTwo(Run(Start(0, true), steps), other, id)
  {
    var w := Run(Start(0, true), RetriedProbe(id, meta));
    var unused := UnusedId(w.entries.Keys + w.past.Keys);
    RetriedProbeLeavesMark(id, meta);
    var rest;
    rest, other := MarkShowsTwo(w, id, unused);
    steps := RetriedProbe(id, meta) + rest;
    RunJoin(Start(0, true), RetriedProbe(id, meta), rest);
  }
}
