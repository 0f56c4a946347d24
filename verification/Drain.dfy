/**
 * One drain pass: it takes the queue's entries in order, claims each, decides, and
 * hands it over, returns it, or steps over it, until it must stop. What the rest of the
 * system answers it in each turn of the loop is a parameter.
 */
module Drain {
  import opened Numbers
  import opened MemberOrder
  import opened QueueEntry
  import opened RequestQueue
  import opened QueueBackend

  /** Seconds for which a removed id cannot be added again. */
  const REQUEST_TOMBSTONE_TTL_SECONDS: int := 60

  /** How the claim of a request's budgets went, thrown errors included. */
  datatype Turn = TurnAcquired | TurnDeclined | CostImpossible | CostUnspendable | FrozenMeanwhile | Failed

  /** The calls of a turn that may throw: for the next entry, about the freeze, and to its owner. */
  datatype Call = NextCall | FreezeCall | ReadyCall(delivered: bool)

  /**
   * What one turn of the loop is told. `gone` is the request ending right after it was
   * claimed, `waiterFailed` whether this replica owns the request and failed its waiter.
   */
  datatype Answers = Answers(
    now: int,
    frozenGrants: set<string>,
    fails: Option<Call>,
    gone: bool,
    canProcess: bool,
    probing: bool,
    unsatisfiable: bool,
    waiterFailed: bool,
    turn: Turn)

  /** What the pass did with an entry it claimed; `Misreported` is handed over, then put back all the same. */
  datatype Outcome = HandedOver | SteppedOver | Returned | Vanished | Misreported

  /** What the loop does next: go on as it is, without the entry, without its grant, or stop. */
  datatype Action = GoOn | SkipEntry | SkipGrant | Stop

  datatype Visit = Visit(id: Text, outcome: Outcome, action: Action, answers: Answers)

  /** No wait would see this request's cost admitted. */
  predicate Hopeless(a: Answers) {
    a.fails != Some(FreezeCall) && if a.canProcess then a.turn == CostImpossible || a.turn == CostUnspendable else a.unsatisfiable
  }

  /** Refused for now: by a freeze, or by a budget that is short. */
  predicate Declined(a: Answers) {
    a.fails != Some(FreezeCall) && if a.canProcess then a.turn == TurnDeclined else !a.unsatisfiable
  }

  /** Neither a freeze nor a budget stands in the way. */
  predicate Cleared(a: Answers) {
    a.fails != Some(FreezeCall) && a.canProcess && a.turn == TurnAcquired
  }

  /** What a decline that may yet be satisfied does to the rest of the pass. */
  function DeclineAction(isolated: bool, grantId: string): Action {
    if grantId != "" && isolated then SkipGrant else if isolated then SkipEntry else Stop
  }

  /** Where the answers send an entry that needs no nomination; `there` is whether it still exists. */
  function Destined(isolated: bool, grantId: string, there: bool, a: Answers): (Outcome, Action) {
    if Hopeless(a) then (SteppedOver, SkipEntry)
    else if Declined(a) then (Returned, DeclineAction(isolated, grantId))
    else if Cleared(a) && !there then (Vanished, GoOn)
    else if Cleared(a) && (a.fails.None? || !a.fails.value.ReadyCall?) then (HandedOver, GoOn)
    else if Cleared(a) && a.fails.value.delivered then (Misreported, Stop)
    else (Returned, Stop)
  }

  /** Whether the request's nomination as a probe, where it needs one, is taken. */
  ghost predicate Nominated(q: Queue, id: Text, grantId: string, isolated: bool, a: Answers) {
    a.fails != Some(FreezeCall) && a.canProcess && a.probing ==>
      StartThaw(q, id, if isolated then grantId else "", !isolated, a.now).1
  }

  /** A probe that stands: marked, in progress, and under no lapsed claim. */
  predicate ProbeStands(m: Meta, now: int) { m.isThawRequest && m.status == InProgress && !ClaimLapsed(m.claimedAt, now) }

  /** A nomination is taken exactly for a request still there, with no other probe standing: of its own grant, where grants are apart. */
  lemma NominatedIsSole(q: Queue, id: Text, isolated: bool, a: Answers)
    requires a.fails != Some(FreezeCall) && a.canProcess && a.probing && q.Find(id, a.now).Some?
    ensures var grantId := q.Find(id, a.now).value.grantId;
      Nominated(q, id, grantId, isolated, a) <==>
      !exists other :: other in q.scores.At(a.now) && other != id && q.Find(other, a.now).Some?
        && (isolated ==> q.Find(other, a.now).value.grantId == grantId) && ProbeStands(q.Find(other, a.now).value, a.now)
  {
    var grantId := q.Find(id, a.now).value.grantId;
    forall other | other in q.scores.At(a.now) && other != id && q.Find(other, a.now).Some?
      ensures AnotherProbe(q, other, id, if isolated then grantId else "", !isolated, a.now)
        <==> (isolated ==> q.Find(other, a.now).value.grantId == grantId) && ProbeStands(q.Find(other, a.now).value, a.now)
    {
    }
  }

  /** Pending, unclaimed, and carrying no probe mark. */
  predicate Restored(m: Meta) { m.status == Pending && m.claimedAt.None? && !m.isThawRequest }

  /** The entry, if it is still there, is under the claim made at `claimedAt`, which stands. */
  ghost predicate Claimed(q: Queue, id: Text, claimedAt: int, isThawRequest: bool, now: int) {
    id in q.entries ==>
      && now < q.entries[id].expiresAt
      && Confirmable(q.entries[id].value, claimedAt, now)
      && (q.entries[id].value.isThawRequest ==> isThawRequest)
  }

  /** Where an entry the pass claimed has ended up. */
  ghost predicate Settled(q: Queue, v: Visit) {
    match v.outcome
    case HandedOver => v.id in q.entries && Dispatched(q.entries[v.id].value)
    case SteppedOver => v.id in q.entries ==> !v.answers.waiterFailed && Restored(q.entries[v.id].value)
    case Returned => v.id in q.entries ==> Restored(q.entries[v.id].value)
    case Vanished => v.id !in q.entries
    case Misreported => v.id in q.entries && Restored(q.entries[v.id].value)
  }

  /** Nothing but `id` has changed: its metadata, or whether it is there at all. */
  ghost predicate OnlyTouched(q: Queue, r: Queue, id: Text) {
    && (forall other :: other != id ==> (other in q.entries <==> other in r.entries))
    && (forall other :: other != id && other in q.entries ==> r.entries[other] == q.entries[other])
    && (id in r.entries ==> id in q.entries && r.entries[id].expiresAt == q.entries[id].expiresAt)
    && (id in r.entries ==> r.entries[id].value.grantId == q.entries[id].value.grantId)
    && (forall other :: other in r.scores.byId ==> other in q.scores.byId && r.scores.byId[other] == q.scores.byId[other])
    && (r.scores.expiresAt.None? || r.scores.expiresAt == q.scores.expiresAt)
  }

  /** No key expires and no lease lapses while the pass runs. */
  ghost predicate Steady(q: Queue, first: int, last: int) {
    && (q.scores.expiresAt.Some? ==> q.scores.expiresAt.value > last)
    && forall id :: id in q.entries ==>
      q.entries[id].expiresAt > last && (Claimable(q.entries[id].value, last) ==> Claimable(q.entries[id].value, first))
  }

  /** What the pass may still be handed. */
  function Open(q: Queue, blocked: set<string>, skipped: set<Text>, at: int): set<Text> {
    set id | id in q.scores.At(at) && Eligible(q, id, blocked, skipped, at) :: id
  }

  /** In a steady queue an entry is eligible throughout or not at all. */
  lemma EligibleThroughout(q: Queue, blocked: set<string>, skipped: set<Text>, first: int, last: int, now: int,
        id: Text)
    requires Steady(q, first, last) && first <= now <= last
    ensures Eligible(q, id, blocked, skipped, now) <==> Eligible(q, id, blocked, skipped, last)
    ensures q.scores.At(now) == q.scores.byId
  {
  }

  /** A visit leaves nothing open that was not, and closes what it visited. */
  lemma VisitCloses(q: Queue, r: Queue, v: Visit, blocked: set<string>, skipped: set<Text>, first: int, last: int)
    requires Steady(q, first, last) && OnlyTouched(q, r, v.id) && Settled(r, v) && first <= last
    requires v.id in q.entries && v.id in q.scores.byId
    requires v.action == GoOn ==> v.outcome == HandedOver || v.outcome == Vanished
    requires v.action == SkipGrant ==> q.entries[v.id].value.grantId != ""
    ensures Steady(r, first, last)
    ensures forall id :: id in Open(r, blocked, skipped, last) ==> id in Open(q, blocked, skipped, last) || id == v.id
    ensures v.action != Stop ==>
      var blocked', skipped' := Blocked(blocked, q, v), Skipped(skipped, v);
      && v.id !in Open(r, blocked', skipped', last)
      && forall id :: id in Open(r, blocked', skipped', last) ==> id in Open(q, blocked, skipped, last)
  {
    forall id | id in Open(r, blocked, skipped, last) && id != v.id ensures id in Open(q, blocked, skipped, last) {
      assert id in q.scores.At(last) && q.Find(id, last) == r.Find(id, last);
    }
    if v.action != Stop {
      var blocked', skipped' := Blocked(blocked, q, v), Skipped(skipped, v);
      assert !Eligible(r, v.id, blocked', skipped', last);
      forall id | id in Open(r, blocked', skipped', last) ensures id in Open(q, blocked, skipped, last) {
        assert id != v.id && id in r.entries && q.Find(id, last) == r.Find(id, last);
        assert id in q.scores.At(last);
        assert id !in skipped;
        assert Eligible(q, id, blocked, skipped, last);
      }
    }
  }

  function Blocked(blocked: set<string>, q: Queue, v: Visit): set<string>
    requires v.id in q.entries
  {
    if v.action == SkipGrant then blocked + {q.entries[v.id].value.grantId} else blocked
  }

  function Skipped(skipped: set<Text>, v: Visit): set<Text> {
    if v.action == SkipEntry then skipped + {v.id} else skipped
  }

  lemma TouchedTwice(q: Queue, r: Queue, t: Queue, id: Text)
    requires OnlyTouched(q, r, id) && OnlyTouched(r, t, id)
    ensures OnlyTouched(q, t, id)
  {
  }

  lemma ClaimTouches(q: Queue, id: Text, now: int)
    requires id in q.entries
    ensures OnlyTouched(q, ClaimEntry(q, id, now), id)
  {
  }

  /** What was settled stays settled while another entry is visited. */
  lemma StaysSettled(q: Queue, r: Queue, id: Text, v: Visit)
    requires OnlyTouched(q, r, id) && v.id != id && Settled(q, v)
    ensures Settled(r, v)
  {
  }

  /** How the end of a visit goes with what the loop does next. */
  ghost predicate Visited(isolated: bool, v: Visit) {
    && (v.action == GoOn <==> v.outcome == HandedOver || v.outcome == Vanished)
    && (v.action == Stop ==> PutBack(v.outcome))
    && (v.outcome == SteppedOver ==> v.action == SkipEntry)
    && (v.outcome == Misreported ==> v.action == Stop)
    && (!isolated ==>
          && (PutBack(v.outcome) ==> v.action == Stop)
          && (v.action == SkipEntry ==> v.outcome == SteppedOver)
          && v.action != SkipGrant)
  }

  /** How the end of a visit goes with what the turn was answered. */
  ghost predicate Heeds(isolated: bool, v: Visit) {
    var a := v.answers;
    && (v.outcome == SteppedOver ==> Hopeless(a))
    && (Declined(a) ==> v.outcome == Returned && (!isolated ==> v.action == Stop))
    && (!Hopeless(a) && !Declined(a) && !Cleared(a) ==> v.outcome == Returned && v.action == Stop)
    && (Told(v.outcome) ==> Cleared(a))
    && (!(a.canProcess && a.probing) && Hopeless(a) ==> v.outcome == SteppedOver)
    && (!a.probing && !a.gone && Cleared(a) ==> Told(v.outcome) || a.fails == Some(ReadyCall(false)))
  }

  /** An isolated decline takes its whole grant out of the pass, or only its entry if that has no grant. */
  ghost predicate Skips(isolated: bool, grantId: string, v: Visit) {
    isolated && Declined(v.answers) && !(v.answers.canProcess && v.answers.probing) ==>
      v.action == if grantId != "" then SkipGrant else SkipEntry
  }

  /** A decline skips its grant, and no entry of a grant is visited after one whose visit skipped it. */
  ghost predicate GrantsSkipped(isolated: bool, q0: Queue, visits: seq<Visit>) {
    && (forall i :: 0 <= i < |visits| ==> Skips(isolated, GrantOf(q0, visits[i].id), visits[i]))
    && (forall i, j :: 0 <= i < j < |visits| && visits[i].action == SkipGrant ==>
          GrantOf(q0, visits[j].id) != GrantOf(q0, visits[i].id))
  }

  /** Entries keep the grants they had in `q0`, and those skipped stay blocked. */
  ghost predicate GrantsKept(isolated: bool, q0: Queue, q: Queue, visits: seq<Visit>, blocked: set<string>) {
    && SameGrants(q0, q) && GrantsSkipped(isolated, q0, visits)
    && (forall i :: 0 <= i < |visits| ==> visits[i].id in q0.entries)
    && (forall i :: 0 <= i < |visits| && visits[i].action == SkipGrant ==>
          GrantOf(q0, visits[i].id) != "" && GrantOf(q0, visits[i].id) in blocked)
  }

  ghost predicate SameGrants(q0: Queue, q: Queue) {
    forall id :: id in q.entries ==> id in q0.entries && GrantOf(q, id) == GrantOf(q0, id)
  }

  function GrantOf(q: Queue, id: Text): string { if id in q.entries then q.entries[id].value.grantId else "" }

  lemma GrantsNext(isolated: bool, q0: Queue, q: Queue, r: Queue, visits: seq<Visit>, next: seq<Visit>, v: Visit, blocked: set<string>)
    requires GrantsKept(isolated, q0, q, visits, blocked) && OnlyTouched(q, r, v.id) && next == visits + [v]
    requires v.id in q.entries && Skips(isolated, GrantOf(q, v.id), v) && (v.action == SkipGrant ==> GrantOf(q, v.id) != "")
    requires GrantOf(q, v.id) == "" || GrantOf(q, v.id) !in blocked
    ensures GrantsKept(isolated, q0, r, next, Blocked(blocked, q, v))
  {
    assert next[|visits|] == v && forall i :: 0 <= i < |visits| ==> next[i] == visits[i];
    forall id | id in r.entries ensures id in q0.entries && GrantOf(r, id) == GrantOf(q0, id) {
      assert id in q.entries && GrantOf(q, id) == GrantOf(q0, id);
    }
  }

  /** Each turn of a pass is a visit that heeds its answers. */
  ghost predicate AllHeed(isolated: bool, answers: nat -> Answers, visits: seq<Visit>) {
    forall i :: 0 <= i < |visits| ==> visits[i].answers == answers(i) && Heeds(isolated, visits[i])
  }

  /** One more visit, which heeds what its turn was answered. */
  ghost predicate GrownBy(isolated: bool, visits: seq<Visit>, next: seq<Visit>, a: Answers) {
    |next| == |visits| + 1 && next[..|visits|] == visits && next[|visits|].answers == a && Heeds(isolated, next[|visits|])
  }

  /** Without isolation a turn that was declined is the pass's last, and nobody was told in it. */
  lemma DeclineEnds(isolated: bool, answers: nat -> Answers, visits: seq<Visit>)
    requires AllHeed(isolated, answers, visits)
    requires forall i :: 0 <= i < |visits| - 1 ==> visits[i].action != Stop
    ensures !isolated ==> DeclineIsLast(answers, visits)
  {
    forall k | !isolated && 0 <= k < |visits| && Declined(answers(k))
      ensures k == |visits| - 1 && HandedOverIn(visits) == HandedOverIn(visits[..k])
    {
      assert Heeds(isolated, visits[k]);
      assert visits[k].action == Stop;
      assert visits == visits[..k] + [visits[k]];
      HandedOverNext(visits[..k], visits[k]);
      assert HandedOverIn(visits[..k]) + [] == HandedOverIn(visits[..k]);
    }
  }

  lemma HeedsNext(isolated: bool, answers: nat -> Answers, visits: seq<Visit>, next: seq<Visit>)
    requires AllHeed(isolated, answers, visits) && GrownBy(isolated, visits, next, answers(|visits|))
    ensures AllHeed(isolated, answers, next)
  {
    forall i | 0 <= i < |visits| ensures next[i] == visits[i] { assert next[..|visits|][i] == visits[i]; }
  }

  /** Whether the owner has been told it is its turn. */
  predicate Told(outcome: Outcome) { outcome == HandedOver || outcome == Misreported }

  function HandedOverIn(visits: seq<Visit>): seq<Text>
    decreases |visits|
  {
    if visits == [] then []
    else
      var last := visits[|visits| - 1];
      HandedOverIn(visits[..|visits| - 1]) + (if Told(last.outcome) then [last.id] else [])
  }

  /** Whether the pass was stopped by the last entry it visited, and put it back. */
  ghost predicate Ended(visits: seq<Visit>) {
    visits != [] && visits[|visits| - 1].action == Stop && PutBack(visits[|visits| - 1].outcome)
  }

  /** Only the last visit of a pass may stop it, and it stops on an entry it returns. */
  ghost predicate EndsWith(visits: seq<Visit>, action: Action) {
    && visits != []
    && (forall i :: 0 <= i < |visits| - 1 ==> visits[i].action != Stop)
    && visits[|visits| - 1].action == action
    && (action == Stop ==> PutBack(visits[|visits| - 1].outcome))
  }

  predicate PutBack(outcome: Outcome) { outcome == Returned || outcome == Misreported }

  lemma VisitNext(told: seq<Text>, visits: seq<Visit>, v: Visit)
    requires NoneStopped(visits) && (v.action == Stop ==> PutBack(v.outcome))
    ensures EndsWith(visits + [v], v.action)
    ensures told + HandedOverIn(visits + [v])
      == if Told(v.outcome) then told + HandedOverIn(visits) + [v.id] else told + HandedOverIn(visits)
  {
    HandedOverNext(visits, v);
    var before := HandedOverIn(visits);
    if Told(v.outcome) {
      assert told + (before + [v.id]) == told + before + [v.id];
    } else {
      assert before + [] == before;
    }
  }

  lemma HandedOverNext(visits: seq<Visit>, v: Visit)
    ensures HandedOverIn(visits + [v]) == HandedOverIn(visits) + (if Told(v.outcome) then [v.id] else [])
  {
    assert (visits + [v])[..|visits|] == visits;
  }

  /** What a pass over `q` has done so far, and what it may still be handed. */
  ghost predicate PassOk(scores: map<Text, int>, q: Queue, visits: seq<Visit>, blocked: set<string>,
        skipped: set<Text>, last: int) {
    && (forall id :: id in q.scores.byId ==> id in scores && q.scores.byId[id] == scores[id])
    && (forall i :: 0 <= i < |visits| ==> Settled(q, visits[i]) && visits[i].id in scores)
    && (forall i :: 0 <= i < |visits| && visits[i].action != Stop ==> visits[i].id !in Open(q, blocked, skipped, last))
    && (forall i, j :: 0 <= i < j < |visits| ==> visits[i].id != visits[j].id && visits[i].action != Stop)
  }

  /** Every entry visited was queued, was visited once, and has ended up where its outcome says. */
  ghost predicate AllSettled(scores: map<Text, int>, q: Queue, visits: seq<Visit>) {
    && (forall i :: 0 <= i < |visits| ==> Settled(q, visits[i]) && visits[i].id in scores)
    && (forall i, j :: 0 <= i < j < |visits| ==> visits[i].id != visits[j].id)
  }

  /** A turn that was declined is the last, and nobody is told in it. */
  ghost predicate DeclineIsLast(answers: nat -> Answers, visits: seq<Visit>) {
    forall k :: 0 <= k < |visits| && Declined(answers(k)) ==>
      k == |visits| - 1 && HandedOverIn(visits) == HandedOverIn(visits[..k])
  }

  /** Visited in the queue's order, and none put back before the last. */
  ghost predicate InOrderOf(scores: map<Text, int>, visits: seq<Visit>) {
    forall i, j :: 0 <= i < j < |visits| ==>
      && visits[i].id in scores && visits[j].id in scores
      && AtOrBefore(scores, visits[i].id, visits[j].id) && !PutBack(visits[i].outcome)
  }

  /** What may still be handed out was stepped over. */
  ghost predicate OnlyHopelessLeft(q: Queue, visits: seq<Visit>, last: int) {
    forall id :: Eligible(q, id, {}, {}, last) ==>
      exists i :: 0 <= i < |visits| && visits[i].id == id && visits[i].outcome == SteppedOver
  }

  lemma PassSettles(scores: map<Text, int>, q: Queue, visits: seq<Visit>, blocked: set<string>, skipped: set<Text>, last: int)
    requires PassOk(scores, q, visits, blocked, skipped, last)
    ensures AllSettled(scores, q, visits)
    ensures forall i :: 0 <= i < |visits| - 1 ==> visits[i].action != Stop
  {
    OnlyLastStops(scores, q, visits, blocked, skipped, last);
  }

  lemma OnlyLastStops(scores: map<Text, int>, q: Queue, visits: seq<Visit>, blocked: set<string>,
        skipped: set<Text>, last: int)
    requires PassOk(scores, q, visits, blocked, skipped, last)
    ensures forall i :: 0 <= i < |visits| - 1 ==> visits[i].action != Stop
  {
    forall i | 0 <= i < |visits| - 1 ensures visits[i].action != Stop { assert visits[i].id != visits[i + 1].id; }
  }

  /** Without isolation a pass goes down the queue in order, and stops at the first entry it returns. */
  ghost predicate InTurn(scores: map<Text, int>, q: Queue, visits: seq<Visit>, blocked: set<string>,
        skipped: set<Text>, last: int)
    requires PassOk(scores, q, visits, blocked, skipped, last)
  {
    && blocked == {}
    && (forall i, j :: 0 <= i < j < |visits| ==> AtOrBefore(scores, visits[i].id, visits[j].id))
    && (forall i, id :: 0 <= i < |visits| && id in Open(q, blocked, skipped, last) ==>
        id in scores && AtOrBefore(scores, visits[i].id, id))
    && (forall i :: 0 <= i < |visits| && PutBack(visits[i].outcome) ==> visits[i].action == Stop)
    && (forall id :: id in skipped ==> exists i :: 0 <= i < |visits| && visits[i].id == id && visits[i].outcome == SteppedOver)
  }

  lemma PassGoesOn(scores: map<Text, int>, q: Queue, r: Queue, visits: seq<Visit>, v: Visit,
        blocked: set<string>, skipped: set<Text>, first: int, last: int)
    requires PassOk(scores, q, visits, blocked, skipped, last) && Steady(q, first, last) && first <= last
    requires v.id in Open(q, blocked, skipped, last) && OnlyTouched(q, r, v.id) && Settled(r, v)
    requires NoneStopped(visits)
    requires v.action == GoOn ==> v.outcome == HandedOver || v.outcome == Vanished
    requires v.action == SkipGrant ==> q.entries[v.id].value.grantId != ""
    ensures Steady(r, first, last)
    ensures PassOk(scores, r, visits + [v], Blocked(blocked, q, v), Skipped(skipped, v), last)
    ensures v.action != Stop ==>
      Open(r, Blocked(blocked, q, v), Skipped(skipped, v), last) < Open(q, blocked, skipped, last)
    ensures v.action == Stop ==> Open(r, blocked, skipped, last) <= Open(q, blocked, skipped, last) + {v.id}
  {
    VisitCloses(q, r, v, blocked, skipped, first, last);
    forall i | 0 <= i < |visits| ensures Settled(r, visits[i]) && visits[i].id != v.id {
      StaysSettled(q, r, v.id, visits[i]);
    }
    assert v.action != Stop ==>
      v.id in Open(q, blocked, skipped, last) && v.id !in Open(r, Blocked(blocked, q, v), Skipped(skipped, v), last);
  }

  lemma TurnGoesOn(scores: map<Text, int>, q: Queue, r: Queue, visits: seq<Visit>, v: Visit,
        blocked: set<string>, skipped: set<Text>, last: int)
    requires PassOk(scores, q, visits, blocked, skipped, last) && InTurn(scores, q, visits, blocked, skipped, last)
    requires v.id in Open(q, blocked, skipped, last) && v.id in scores
    requires Leads(q, v.id, blocked, skipped, last)
    requires PassOk(scores, r, visits + [v], Blocked(blocked, q, v), Skipped(skipped, v), last)
    requires v.action != Stop ==> Open(r, Blocked(blocked, q, v), Skipped(skipped, v), last) < Open(q, blocked, skipped, last)
    requires v.action == Stop ==> Open(r, blocked, skipped, last) <= Open(q, blocked, skipped, last) + {v.id}
    requires v.action != SkipGrant && (PutBack(v.outcome) ==> v.action == Stop) && (v.action == SkipEntry ==> v.outcome == SteppedOver)
    ensures InTurn(scores, r, visits + [v], Blocked(blocked, q, v), Skipped(skipped, v), last)
  {
    var now := visits + [v];
    assert now[|visits|] == v && forall i :: 0 <= i < |visits| ==> now[i] == visits[i];
    OrderIsTotal(scores, v.id, v.id, v.id);
    forall id | id in Skipped(skipped, v) ensures exists i :: 0 <= i < |now| && now[i].id == id && now[i].outcome == SteppedOver {
      if id in skipped {
        var i :| 0 <= i < |visits| && visits[i].id == id && visits[i].outcome == SteppedOver;
        assert now[i].id == id && now[i].outcome == SteppedOver;
      }
    }
  }

  /** No entry the pass may still be handed comes before `id`. */
  ghost predicate Leads(q: Queue, id: Text, blocked: set<string>, skipped: set<Text>, last: int) {
    forall other :: other in Open(q, blocked, skipped, last) ==>
      id in q.scores.byId && other in q.scores.byId && AtOrBefore(q.scores.byId, id, other)
  }

  ghost predicate NoneStopped(visits: seq<Visit>) {
    forall i :: 0 <= i < |visits| ==> visits[i].action != Stop
  }

  lemma NothingLeft(scores: map<Text, int>, q: Queue, visits: seq<Visit>, blocked: set<string>,
        skipped: set<Text>, last: int)
    requires PassOk(scores, q, visits, blocked, skipped, last) && InTurn(scores, q, visits, blocked, skipped, last)
    requires Open(q, blocked, skipped, last) == {}
    ensures OnlyHopelessLeft(q, visits, last)
  {
    forall id | Eligible(q, id, {}, {}, last)
      ensures exists i :: 0 <= i < |visits| && visits[i].id == id && visits[i].outcome == SteppedOver
    {
      assert id in skipped || id in Open(q, blocked, skipped, last);
    }
  }

  lemma TurnsInOrder(scores: map<Text, int>, q: Queue, visits: seq<Visit>, blocked: set<string>, skipped: set<Text>, last: int)
    requires PassOk(scores, q, visits, blocked, skipped, last) && InTurn(scores, q, visits, blocked, skipped, last)
    ensures InOrderOf(scores, visits)
  {
    OnlyLastStops(scores, q, visits, blocked, skipped, last);
    forall i, j | 0 <= i < j < |visits|
      ensures visits[i].id in scores && visits[j].id in scores && AtOrBefore(scores, visits[i].id, visits[j].id)
      ensures !PutBack(visits[i].outcome)
    {
      assert visits[i].action != Stop;
    }
  }

  class DrainLoop {
    const queue: RequestQueueStore
    /** Whether each grant is metered apart. */
    const isolated: bool
    /** Whether a claim holds capacity that must be handed back. */
    const claimsReleasable: bool
    /** Whether this replica drains at all: not as a worker, and not while it shuts down. */
    var isWorker: bool
    var admissionHalted: bool
    var processingLock: bool
    var processingPending: bool
    /** The requests whose owners were told it is their turn. */
    var notified: seq<Text>

    constructor (queue: RequestQueueStore, isolated: bool, claimsReleasable: bool)
      ensures this.queue == queue && this.isolated == isolated && this.claimsReleasable == claimsReleasable
      ensures !isWorker && !admissionHalted && !processingLock && notified == []
    {
      isWorker, admissionHalted := false, false;
      this.queue, this.isolated, this.claimsReleasable := queue, isolated, claimsReleasable;
      processingLock, processingPending, notified := false, false, [];
    }

    /** Every write-back confirms the claim first; a refused claim writes nothing. */
    method ReturnToQueue(id: Text, claimedAt: int, isThawRequest: bool, now: int)
      requires Claimed(queue.Contents(), id, claimedAt, isThawRequest, now)
      modifies queue
      ensures OnlyTouched(old(queue.Contents()), queue.Contents(), id)
      ensures id in queue.Contents().entries <==> id in old(queue.Contents()).entries
      ensures id in queue.Contents().entries ==> Restored(queue.Contents().entries[id].value)
    {
      var confirmed := queue.ConfirmRequest(id, claimedAt, now);
      if !confirmed {
        return;
      }
      PutBackPending(id, isThawRequest, now);
    }

    method PutBackPending(id: Text, isThawRequest: bool, now: int)
      requires id in queue.Contents().entries && now < queue.Contents().entries[id].expiresAt
      requires queue.Contents().entries[id].value.claimedAt.None?
      requires queue.Contents().entries[id].value.isThawRequest ==> isThawRequest
      modifies queue
      ensures OnlyTouched(old(queue.Contents()), queue.Contents(), id)
      ensures id in queue.Contents().entries && Restored(queue.Contents().entries[id].value)
    {
      queue.UpdateRequest(id, Updates(Some(Pending), None, None, if isThawRequest then Some(false) else None), now);
    }

    /** Returns an entry whose cost nothing will fit, and removes it if its waiter was failed here. */
    method StepOver(id: Text, isThawRequest: bool, a: Answers)
      requires Claimed(queue.Contents(), id, a.now, isThawRequest, a.now)
      modifies queue
      ensures OnlyTouched(old(queue.Contents()), queue.Contents(), id)
      ensures id in queue.Contents().entries <==> id in old(queue.Contents()).entries && !a.waiterFailed
      ensures id in queue.Contents().entries ==> Restored(queue.Contents().entries[id].value)
    {
      ReturnToQueue(id, a.now, isThawRequest, a.now);
      if a.waiterFailed {
        var _ := queue.RemoveRequest(id, REQUEST_TOMBSTONE_TTL_SECONDS, a.now);
      }
    }

    method Decline(grantId: string) returns (action: Action)
      ensures action == DeclineAction(isolated, grantId)
    {
      if grantId != "" && isolated {
        return SkipGrant;
      }
      if isolated {
        return SkipEntry;
      }
      return Stop;
    }

    /** From the claim of the request's budgets on. */
    method TryTurn(id: Text, grantId: string, isThawRequest: bool, a: Answers) returns (outcome: Outcome,
          action: Action)
      requires Claimed(queue.Contents(), id, a.now, isThawRequest, a.now)
      modifies queue, this`notified
      ensures OnlyTouched(old(queue.Contents()), queue.Contents(), id)
      ensures Settled(queue.Contents(), Visit(id, outcome, action, a))
      ensures notified == if Told(outcome) then old(notified) + [id] else old(notified)
      ensures a.fails != Some(FreezeCall) && a.canProcess ==>
        (outcome, action) == Destined(isolated, grantId, id in old(queue.Contents()).entries, a)
    {
      match a.turn {
        case TurnAcquired =>
          // A read that finds the entry gone ends the claim here.
          if claimsReleasable && queue.Metadata(id, a.now).None? {
            return Vanished, GoOn;
          }
          var confirmed := queue.ConfirmRequest(id, a.now, a.now);
          if !confirmed {
            return Vanished, GoOn;
          }
          if a.fails.None? || !a.fails.value.ReadyCall? {
            notified := notified + [id];
            return HandedOver, GoOn;
          }
          if a.fails.value.delivered {
            notified := notified + [id];
          }
          // Already confirmed, so it is written back without asking again.
          PutBackPending(id, isThawRequest, a.now);
          return if a.fails.value.delivered then Misreported else Returned, Stop;
        case TurnDeclined =>
          ReturnToQueue(id, a.now, isThawRequest, a.now);
          action := Decline(grantId);
          return Returned, action;
        case CostImpossible =>
          StepOver(id, isThawRequest, a);
          return SteppedOver, SkipEntry;
        case CostUnspendable =>
          StepOver(id, isThawRequest, a);
          return SteppedOver, SkipEntry;
        case FrozenMeanwhile =>
          ReturnToQueue(id, a.now, isThawRequest, a.now);
          return Returned, Stop;
        case Failed =>
          ReturnToQueue(id, a.now, isThawRequest, a.now);
          return Returned, Stop;
      }
    }

    /** Before any budget is asked: returned, or stepped over if no wait would help its cost. */
    method Refuse(id: Text, grantId: string, isThawRequest: bool, a: Answers) returns (outcome: Outcome, action: Action)
      requires Claimed(queue.Contents(), id, a.now, isThawRequest, a.now)
      modifies queue
      ensures OnlyTouched(old(queue.Contents()), queue.Contents(), id)
      requires a.fails == Some(FreezeCall) || !a.canProcess
      ensures Settled(queue.Contents(), Visit(id, outcome, action, a))
      ensures (outcome, action) == Destined(isolated, grantId, true, a)
    {
      if a.fails == Some(FreezeCall) {
        ReturnToQueue(id, a.now, isThawRequest, a.now);
        return Returned, Stop;
      }
      if a.unsatisfiable {
        StepOver(id, isThawRequest, a);
        return SteppedOver, SkipEntry;
      }
      ReturnToQueue(id, a.now, isThawRequest, a.now);
      action := Decline(grantId);
      return Returned, action;
    }

    /** From the freeze on: refused, or nominated where it needs to be, and then its budgets. */
    method VisitKnown(id: Text, grantId: string, isThawRequest: bool, a: Answers) returns (outcome: Outcome,
          action: Action)
      requires Claimed(queue.Contents(), id, a.now, isThawRequest, a.now)
      modifies queue, this`notified
      ensures OnlyTouched(old(queue.Contents()), queue.Contents(), id)
      ensures Settled(queue.Contents(), Visit(id, outcome, action, a))
      ensures notified == if Told(outcome) then old(notified) + [id] else old(notified)
      ensures (outcome, action) == if Nominated(old(queue.Contents()), id, grantId, isolated, a)
        then Destined(isolated, grantId, id in old(queue.Contents()).entries, a) else (Returned, Stop)
    {
      if a.fails == Some(FreezeCall) || !a.canProcess {
        outcome, action := Refuse(id, grantId, isThawRequest, a);
        return;
      }
      if a.probing {
        var started := queue.TryStartThawRequest(id, if isolated then grantId else "", !isolated, a.now);
        if !started {
          ReturnToQueue(id, a.now, isThawRequest, a.now);
          return Returned, Stop;
        }
      }
      outcome, action := TryTurn(id, grantId, isThawRequest || a.probing, a);
    }

    /** From the claim of one entry to its hand-over or return. */
    method VisitEntry(id: Text, a: Answers) returns (outcome: Outcome, action: Action)
      requires var m := queue.Contents().Find(id, a.now); m.Some? && m.value.status == InProgress && m.value.claimedAt == Some(a.now)
      modifies queue, this`notified
      ensures OnlyTouched(old(queue.Contents()), queue.Contents(), id)
      ensures Settled(queue.Contents(), Visit(id, outcome, action, a))
      ensures notified == if Told(outcome) then old(notified) + [id] else old(notified)
      ensures var q := old(queue.Contents());
        var seen := if a.gone then Remove(q, id, REQUEST_TOMBSTONE_TTL_SECONDS, a.now) else q;
        (outcome, action) == if Nominated(seen, id, q.entries[id].value.grantId, isolated, a)
          then Destined(isolated, q.entries[id].value.grantId, !a.gone, a) else (Returned, Stop)
    {
      var request := queue.Metadata(id, a.now).value;
      ghost var before := queue.Contents();
      if a.gone {
        var _ := queue.RemoveRequest(id, REQUEST_TOMBSTONE_TTL_SECONDS, a.now);
      }
      ghost var seen := queue.Contents();
      outcome, action := VisitKnown(id, request.grantId, request.isThawRequest, a);
      TouchedTwice(before, seen, queue.Contents(), id);
    }

    /** The entry just claimed, and what its visit takes from the rest of the pass. */
    method VisitClaimed(id: Text, a: Answers, blocked: set<string>, skipped: set<Text>)
        returns (action: Action, nextBlocked: set<string>, nextSkipped: set<Text>, ghost v: Visit)
      requires var m := queue.Contents().Find(id, a.now); m.Some? && m.value.status == InProgress && m.value.claimedAt == Some(a.now)
      modifies queue, this`notified
      ensures v.id == id && v.action == action && v.answers == a && Visited(isolated, v) && Heeds(isolated, v)
      ensures OnlyTouched(old(queue.Contents()), queue.Contents(), id) && Settled(queue.Contents(), v)
      ensures nextBlocked == Blocked(blocked, old(queue.Contents()), v) && nextSkipped == Skipped(skipped, v)
      ensures action == SkipGrant ==> old(queue.Contents()).entries[id].value.grantId != ""
      ensures Skips(isolated, old(queue.Contents()).entries[id].value.grantId, v)
      ensures notified == if Told(v.outcome) then old(notified) + [id] else old(notified)
    {
      var grantId := queue.Metadata(id, a.now).value.grantId;
      var outcome;
      outcome, action := VisitEntry(id, a);
      v, nextBlocked, nextSkipped := Visit(id, outcome, action, a), blocked, skipped;
      if action == SkipEntry {
        nextSkipped := skipped + {id};
      } else if action == SkipGrant {
        nextBlocked := blocked + {grantId};
      }
    }

    /** The least of what the pass may still be handed, claimed; without isolation, none only if none is left. */
    method ClaimNext(a: Answers, blocked: set<string>, skipped: set<Text>, first: int, last: int) returns (claim: Option<Text>)
      requires first <= a.now <= last < first + QUEUE_CLAIM_LEASE_MS && (!isolated ==> a.frozenGrants == {})
      requires Steady(queue.Contents(), first, last)
      modifies queue
      ensures claim.None? ==>
        && queue.Contents() == old(queue.Contents())
        && (!isolated ==> Open(queue.Contents(), blocked, skipped, last) == {})
      ensures claim.Some? ==>
        && claim.value in Open(old(queue.Contents()), blocked, skipped, last)
        && OnlyTouched(old(queue.Contents()), queue.Contents(), claim.value)
        && (var m := queue.Contents().Find(claim.value, a.now);
            m.Some? && m.value.status == InProgress && m.value.claimedAt == Some(a.now))
        && (!isolated ==> Leads(old(queue.Contents()), claim.value, blocked, skipped, last))
    {
      ghost var before := queue.Contents();
      claim := queue.GetNextRequest(blocked + a.frozenGrants, skipped, a.now);
      forall id ensures Eligible(before, id, blocked, skipped, a.now) <==> Eligible(before, id, blocked, skipped, last) {
        EligibleThroughout(before, blocked, skipped, first, last, a.now, id);
      }
      assert !isolated ==> blocked + a.frozenGrants == blocked;
      if claim.Some? {
        assert Eligible(before, claim.value, blocked, skipped, a.now);
        ClaimTouches(before, claim.value, a.now);
      }
    }

    /** One turn of the loop below: the next entry is claimed and visited, if there is one. */
    method TakeTurn(a: Answers, blocked: set<string>, skipped: set<Text>, first: int, last: int,
        ghost scores: map<Text, int>, ghost visits: seq<Visit>, ghost told: seq<Text>, ghost q0: Queue)
        returns (threw: bool, found: bool, action: Action, nextBlocked: set<string>, nextSkipped: set<Text>, ghost next: seq<Visit>)
      requires first <= a.now <= last < first + QUEUE_CLAIM_LEASE_MS && (!isolated ==> a.frozenGrants == {})
      requires Steady(queue.Contents(), first, last) && PassOk(scores, queue.Contents(), visits, blocked, skipped, last)
      requires !isolated ==> InTurn(scores, queue.Contents(), visits, blocked, skipped, last)
      requires NoneStopped(visits) && notified == told + HandedOverIn(visits)
      requires GrantsKept(isolated, q0, queue.Contents(), visits, blocked)
      modifies queue, this`notified
      ensures Steady(queue.Contents(), first, last)
      ensures threw ==> !found
      ensures !found ==>
        && notified == old(notified) && queue.Contents() == old(queue.Contents())
        && (!isolated && !threw ==> Open(queue.Contents(), blocked, skipped, last) == {})
      ensures found ==>
        && PassOk(scores, queue.Contents(), next, nextBlocked, nextSkipped, last)
        && (!isolated ==> InTurn(scores, queue.Contents(), next, nextBlocked, nextSkipped, last))
        && (action != Stop ==>
              Open(queue.Contents(), nextBlocked, nextSkipped, last) < Open(old(queue.Contents()), blocked, skipped, last))
      ensures found ==> EndsWith(next, action) && notified == told + HandedOverIn(next)
      ensures found ==> GrownBy(isolated, visits, next, a) && GrantsKept(isolated, q0, queue.Contents(), next, nextBlocked)
    {
      ghost var before := queue.Contents();
      threw, found, action, nextBlocked, nextSkipped, next := a.fails == Some(NextCall), false, Stop, blocked, skipped, visits;
      if threw {
        return;
      }
      var claim := ClaimNext(a, blocked, skipped, first, last);
      if claim.None? {
        return;
      }
      found := true;
      ghost var claimed, v := queue.Contents(), Visit(claim.value, Returned, Stop, a);
      action, nextBlocked, nextSkipped, v := VisitClaimed(claim.value, a, blocked, skipped);
      TouchedTwice(before, claimed, queue.Contents(), claim.value);
      next := visits + [v];
      VisitNext(told, visits, v);
      assert Blocked(blocked, before, v) == nextBlocked;
      GrantsNext(isolated, q0, before, queue.Contents(), visits, next, v, blocked);
      PassGoesOn(scores, before, queue.Contents(), visits, v, blocked, skipped, first, last);
      if !isolated {
        TurnGoesOn(scores, before, queue.Contents(), visits, v, blocked, skipped, last);
      }
    }

    /** The loop of a pass, until it is stopped or nothing is handed out. */
    method RunPass(answers: nat -> Answers, first: int, last: int)
        returns (threw: bool, ghost visits: seq<Visit>, ghost blocked: set<string>, ghost skipped: set<Text>)
      requires first <= last < first + QUEUE_CLAIM_LEASE_MS && forall k :: first <= answers(k).now <= last
      requires !isolated ==> forall k :: answers(k).frozenGrants == {}
      requires Steady(queue.Contents(), first, last)
      modifies queue, this`notified
      ensures var scores := old(queue.Contents()).scores.byId;
        && PassOk(scores, queue.Contents(), visits, blocked, skipped, last)
        && (!isolated ==> InTurn(scores, queue.Contents(), visits, blocked, skipped, last))
      ensures notified == old(notified) + HandedOverIn(visits) && AllHeed(isolated, answers, visits)
      ensures GrantsKept(isolated, old(queue.Contents()), queue.Contents(), visits, blocked)
      ensures Ended(visits) || threw
        || (!isolated ==> Open(queue.Contents(), blocked, skipped, last) == {})
    {
      threw, visits := false, [];
      var blockedGrantIds: set<string>, skippedRequestIds: set<Text> := {}, {};
      blocked, skipped := {}, {};
      ghost var scores := queue.Contents().scores.byId;
      var turn, stopped := 0, false;
      while !stopped
        invariant blocked == blockedGrantIds && skipped == skippedRequestIds
        invariant Steady(queue.Contents(), first, last)
        invariant PassOk(scores, queue.Contents(), visits, blocked, skipped, last)
        invariant !isolated ==> InTurn(scores, queue.Contents(), visits, blocked, skipped, last)
        invariant notified == old(notified) + HandedOverIn(visits)
        invariant AllHeed(isolated, answers, visits) && turn == |visits|
        invariant GrantsKept(isolated, old(queue.Contents()), queue.Contents(), visits, blocked)
        invariant if stopped then Ended(visits)
          else !threw && NoneStopped(visits)
        decreases !stopped, Open(queue.Contents(), blocked, skipped, last)
      {
        var found, action, nextBlocked, nextSkipped;
        ghost var next;
        threw, found, action, nextBlocked, nextSkipped, next :=
          TakeTurn(answers(turn), blockedGrantIds, skippedRequestIds, first, last, scores, visits, old(notified), old(queue.Contents()));
        if !found {
          return;
        }
        turn := turn + 1;
        HeedsNext(isolated, answers, visits, next);
        visits, blocked, skipped := next, nextBlocked, nextSkipped;
        blockedGrantIds, skippedRequestIds := nextBlocked, nextSkipped;
        stopped := action == Stop;
      }
    }

    /** What the loop leaves, entry by entry. */
    method WholePass(answers: nat -> Answers, first: int, last: int) returns (threw: bool, ghost visits: seq<Visit>)
      requires first <= last < first + QUEUE_CLAIM_LEASE_MS && forall k :: first <= answers(k).now <= last
      requires !isolated ==> forall k :: answers(k).frozenGrants == {}
      requires Steady(queue.Contents(), first, last)
      modifies queue, this`notified
      ensures notified == old(notified) + HandedOverIn(visits) && AllHeed(isolated, answers, visits)
      ensures GrantsSkipped(isolated, old(queue.Contents()), visits)
      ensures AllSettled(old(queue.Contents()).scores.byId, queue.Contents(), visits)
      ensures !isolated ==> DeclineIsLast(answers, visits) && InOrderOf(old(queue.Contents()).scores.byId, visits)
      ensures !isolated && !threw && !Ended(visits) ==> OnlyHopelessLeft(queue.Contents(), visits, last)
    {
      ghost var scores := queue.Contents().scores.byId;
      ghost var blocked, skipped;
      threw, visits, blocked, skipped := RunPass(answers, first, last);
      PassSettles(scores, queue.Contents(), visits, blocked, skipped, last);
      DeclineEnds(isolated, answers, visits);
      if !isolated {
        TurnsInOrder(scores, queue.Contents(), visits, blocked, skipped, last);
        if !threw && !Ended(visits) {
          NothingLeft(scores, queue.Contents(), visits, blocked, skipped, last);
        }
      }
    }

    /**
     * One pass. Every entry it claimed ends confirmed and handed over, pending again
     * without a probe mark, or gone; no entry is visited twice. Each turn's answers decide
     * which: only a hopeless cost is stepped over, a decline returns the entry, and an owner
     * is told exactly when nothing stands in its way. With isolation a decline keeps the
     * rest of its grant out of the pass, and nobody else. Without it the pass visits
     * entries in the queue's order and stops at the first decline, so nobody behind a
     * declined head is told, and a pass that neither stopped nor
     * threw leaves nothing to hand out but what no budget will ever fit. However it ends,
     * the next pass may begin, and it does at once if another call came meanwhile, which is
     * what `poked` says.
     */
    method ProcessRequests(answers: nat -> Answers, poked: bool, first: int, last: int)
        returns (threw: bool, again: bool, ghost visits: seq<Visit>)
      requires first <= last < first + QUEUE_CLAIM_LEASE_MS && forall k :: first <= answers(k).now <= last
      requires !isolated ==> forall k :: answers(k).frozenGrants == {}
      requires Steady(queue.Contents(), first, last)
      modifies this, queue
      ensures processingLock == old(processingLock) && isWorker == old(isWorker) && admissionHalted == old(admissionHalted)
      ensures isWorker || admissionHalted ==>
        visits == [] && !threw && !again && queue.Contents() == old(queue.Contents()) && processingPending == old(processingPending)
      ensures !isWorker && !admissionHalted && processingLock ==>
        visits == [] && !threw && !again && queue.Contents() == old(queue.Contents()) && processingPending
      ensures !isWorker && !admissionHalted && !processingLock ==> !processingPending && (again <==> poked)
      ensures notified == old(notified) + HandedOverIn(visits)
      ensures AllSettled(old(queue.Contents()).scores.byId, queue.Contents(), visits)
      ensures AllHeed(isolated, answers, visits)
      ensures GrantsSkipped(isolated, old(queue.Contents()), visits)
      ensures !isolated ==> DeclineIsLast(answers, visits) && InOrderOf(old(queue.Contents()).scores.byId, visits)
      ensures !isolated && !isWorker && !admissionHalted && !processingLock && !threw && !Ended(visits) ==>
        OnlyHopelessLeft(queue.Contents(), visits, last)
    {
      threw, again, visits := false, false, [];
      if isWorker {
        return;
      }
      if admissionHalted {
        return;
      }
      if processingLock {
        processingPending := true;
        return;
      }
      processingLock := true;
      processingPending := false;
      threw, visits := WholePass(answers, first, last);
      if poked {
        processingPending := true;
      }
      processingLock := false;
      again := processingPending;
      processingPending := false;
    }
  }
}
