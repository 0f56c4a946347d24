/**
 * One turn at a time: how often an entry is confirmed and its owner told, and whose claim
 * it is told for. Two things loosen that, each of them only at certain steps, and it is
 * shown of each that those steps are the whole difference.
 */
module Turns {
  import opened Numbers
  import opened MemberOrder
  import opened QueueEntry
  import opened Dispatch

  function Count(b: bool): nat { if b then 1 else 0 }

  /** A confirmation of `id` that the backend grants. */
  predicate Confirms(w: World, step: Step, id: Text) {
    && (step.ConfirmClaim? || (step.LoseAnswer? && step.landed))
    && step.serial in w.held && w.held[step.serial].standing == Unsent && w.held[step.serial].id == id
    && id in w.entries && Confirmable(w.entries[id], w.held[step.serial].stamp, w.now)
  }

  predicate HandsOver(w: World, step: Step, id: Text) {
    step.HandOver? && step.serial in w.held && w.held[step.serial].standing == Granted && w.held[step.serial].id == id
  }

  /** The owner asks for a turn: its request is queued, or it retries one it was handed. */
  predicate Asks(w: World, step: Step, id: Text) {
    || (step.Enqueue? && step.id == id && Addable(w, id, step.meta))
    || (step.Retry? && step.id == id && id in w.entries && w.PastOf(id).handed > 0)
  }

  /** A write of `pending` to the entry. */
  predicate WritesPending(w: World, step: Step, id: Text) {
    || Asks(w, step, id)
    || (step.Return? && step.serial in w.held && w.held[step.serial].standing != Unsent && w.held[step.serial].id == id
        && id in w.entries)
  }

  /** A claim in hand whose loop may still tell the owner. */
  predicate LiveClaim(w: World, k: nat, id: Text) {
    k in w.held && w.held[k].id == id && w.held[k].standing == Granted
  }

  function Live(w: World, id: Text): set<nat> {
    set k: nat | k in w.held && LiveClaim(w, k, id) :: k
  }

  /** Whether some claim of the entry can still be confirmed before `pending` is written. */
  function Room(w: World, id: Text): nat {
    Count(id in w.entries && !Dispatched(w.entries[id]))
  }

  /**
   * A step that lets the owner be told once more than it asked: a loop that a call failed
   * returns an entry which has been dispatched, and whose owner has been told or is
   * about to be.
   */
  predicate Loosens(w: World, step: Step, id: Text) {
    && step.Return? && step.serial in w.held
    && w.held[step.serial].standing == Unsure && w.held[step.serial].id == id
    && id in w.entries && Dispatched(w.entries[id])
    && (w.PastOf(id).handed > 0 || Live(w, id) != {})
  }

  datatype Event = Confirmed | HandedOver | Asked | PendingWritten | Loosened

  predicate Happens(w: World, step: Step, id: Text, event: Event) {
    match event
    case Confirmed => Confirms(w, step, id)
    case HandedOver => HandsOver(w, step, id)
    case Asked => Asks(w, step, id)
    case PendingWritten => WritesPending(w, step, id)
    case Loosened => Loosens(w, step, id)
  }

  /** How often something happens to an entry in a stretch of a run. */
  function Times(w: World, steps: seq<Step>, id: Text, event: Event): nat
    decreases |steps|
  {
    if steps == [] then 0
    else Count(Happens(w, steps[0], id, event)) + Times(Next(w, steps[0]), steps[1..], id, event)
  }

  // -------------------------------------------------------------- the count of turns

  /** A step that ends a claim whose loop might have told the owner. */
  predicate Spends(w: World, step: Step, id: Text) {
    (step.HandOver? || step.Return? || step.Abandon?) && step.serial in Live(w, id)
  }

  /** What a step makes of the live claims: one more, one less, or the same. */
  ghost predicate LiveMoved(w: World, step: Step, id: Text, w': World, k: nat) {
    LiveClaim(w', k, id) <==>
      || (LiveClaim(w, k, id) && !(Spends(w, step, id) && k == step.serial))
      || (step.ConfirmClaim? && Confirms(w, step, id) && k == step.serial)
  }

  lemma LiveClaimMoves(w: World, step: Step, id: Text, k: nat)
    requires Orderly(w)
    ensures LiveMoved(w, step, id, Next(w, step), k)
  {
    if step.ClaimEntry? {
      assert HeldOk(w, w.serial + 1);
      assert w.serial + 1 in w.held ==> EntryOk(w, w.held[w.serial + 1].id);
    }
  }

  lemma LiveCounts(w: World, step: Step, id: Text, w': World)
    requires forall k :: LiveMoved(w, step, id, w', k)
    ensures |Live(w', id)| + Count(Spends(w, step, id)) == |Live(w, id)| + Count(step.ConfirmClaim? && Confirms(w, step, id))
  {
    var before, after := Live(w, id), Live(w', id);
    forall k: nat ensures k in after <==>
      || (k in before && !(Spends(w, step, id) && k == step.serial))
      || (step.ConfirmClaim? && Confirms(w, step, id) && k == step.serial)
    {
      assert LiveMoved(w, step, id, w', k);
    }
    if step.ConfirmClaim? && Confirms(w, step, id) {
      assert after == before + {step.serial};
    } else if Spends(w, step, id) {
      assert after == before - {step.serial};
    } else {
      assert after == before;
    }
  }

  /** Only an answered confirmation makes a live claim, and each is spent once. */
  lemma LiveMoves(w: World, step: Step, id: Text)
    requires Orderly(w)
    ensures |Live(Next(w, step), id)| + Count(Spends(w, step, id))
      == |Live(w, id)| + Count(step.ConfirmClaim? && Confirms(w, step, id))
  {
    forall k: nat ensures LiveMoved(w, step, id, Next(w, step), k) {
      LiveClaimMoves(w, step, id, k);
    }
    LiveCounts(w, step, id, Next(w, step));
  }

  /** The turns the owner was told of since it asked, and those it may still be told of. */
  function Open(w: World, id: Text): nat { w.PastOf(id).handed + |Live(w, id)| + Room(w, id) }

  /** The turns the owner may still be told of: one, if it has not been told since it asked. */
  function Owed(w: World, id: Text): nat {
    var open := |Live(w, id)| + Room(w, id);
    if open == 0 && id in w.past && w.PastOf(id).handed == 0 then 1 else open
  }

  /** An id nobody has queued has no turn to its name. */
  lemma NoneBefore(w: World, id: Text)
    requires Orderly(w) && id !in w.past
    ensures Open(w, id) == 0
  {
    assert EntryOk(w, id);
    forall k: nat | k in w.held ensures w.held[k].id != id { assert HeldOk(w, k); }
    assert Live(w, id) == {};
  }

  /** Each step spends what is owed, and only asking or a loosening adds to it. */
  lemma StepSpends(w: World, step: Step, id: Text)
    requires Orderly(w)
    ensures Count(HandsOver(w, step, id)) + Owed(Next(w, step), id)
      <= Owed(w, id) + Count(Asks(w, step, id)) + Count(Loosens(w, step, id))
  {
    LiveMoves(w, step, id);
    assert EntryOk(w, id);
    if id !in w.past {
      NoneBefore(w, id);
    }
    if Live(w, id) == {} {
      assert |Live(w, id)| == 0;
    }
  }

  lemma StepOpens(w: World, step: Step, id: Text, loosened: nat)
    requires Orderly(w) && Open(w, id) <= 1 + loosened
    ensures Open(Next(w, step), id) <= 1 + loosened + Count(Loosens(w, step, id))
  {
    LiveMoves(w, step, id);
    assert EntryOk(w, id);
    if id !in w.past {
      NoneBefore(w, id);
    }
    if Live(w, id) == {} {
      assert |Live(w, id)| == 0;
    }
  }

  lemma StepConfirms(w: World, step: Step, id: Text)
    requires Orderly(w)
    ensures Count(Confirms(w, step, id)) + Room(Next(w, step), id) <= Room(w, id) + Count(WritesPending(w, step, id))
  {
  }

  lemma {:induction false} StretchSpends(w: World, steps: seq<Step>, id: Text)
    requires Orderly(w)
    ensures Times(w, steps, id, Confirmed) <= Room(w, id) + Times(w, steps, id, PendingWritten)
    ensures Times(w, steps, id, HandedOver) <= Owed(w, id) + Times(w, steps, id, Asked) + Times(w, steps, id, Loosened)
    decreases |steps|
  {
    if steps != [] {
      StepSpends(w, steps[0], id);
      StepConfirms(w, steps[0], id);
      NextOrderly(w, steps[0]);
      StretchSpends(Next(w, steps[0]), steps[1..], id);
    }
  }

  lemma {:induction false} StretchOpens(w: World, steps: seq<Step>, id: Text, loosened: nat)
    requires Orderly(w) && Open(w, id) <= 1 + loosened
    ensures Open(Run(w, steps), id) <= 1 + loosened + Times(w, steps, id, Loosened)
    decreases |steps|
  {
    if steps != [] {
      StepOpens(w, steps[0], id, loosened);
      NextOrderly(w, steps[0]);
      StretchOpens(Next(w, steps[0]), steps[1..], id, loosened + Count(Loosens(w, steps[0], id)));
    }
  }

  /**
   * In every stretch of every run, an entry is confirmed at most once more often than
   * `pending` is written to it. Its owner is told at most once more often than it asks in
   * the stretch, and once more for each loosening step so far; from the beginning of a
   * run, no more often than it asks and once more for each such step.
   */
  lemma AtMostOneDispatch(now: int, anyGrant: bool, before: seq<Step>, stretch: seq<Step>, id: Text)
    ensures var start := Start(now, anyGrant); var w := Run(start, before);
      && Times(w, stretch, id, Confirmed) <= 1 + Times(w, stretch, id, PendingWritten)
      && Times(w, stretch, id, HandedOver)
         <= 1 + Times(w, stretch, id, Asked) + Times(start, before, id, Loosened) + Times(w, stretch, id, Loosened)
      && Times(start, before, id, HandedOver) <= Times(start, before, id, Asked) + Times(start, before, id, Loosened)
  {
    var start := Start(now, anyGrant);
    RunOrderly(start, before);
    NoneBefore(start, id);
    StretchOpens(start, before, id, 0);
    StretchSpends(start, before, id);
    StretchSpends(Run(start, before), stretch, id);
  }

  /** Every confirmation is answered, and every message that arrives is known to have been sent. */
  predicate AllHeard(steps: seq<Step>) {
    forall i :: 0 <= i < |steps| ==> !steps[i].LoseAnswer? && (steps[i].HandOver? ==> steps[i].reported)
  }

  ghost predicate NoneUnsure(w: World) {
    forall k :: k in w.held ==> w.held[k].standing != Unsure
  }

  lemma NextUnsure(w: World, step: Step)
    requires NoneUnsure(w) && AllHeard([step])
    ensures NoneUnsure(Next(w, step))
  {
    assert [step][0] == step;
    forall k | k in Next(w, step).held ensures Next(w, step).held[k].standing != Unsure {
      assert k in w.held ==> w.held[k].standing != Unsure;
    }
  }

  lemma {:induction false} HeardNeverLoosens(w: World, steps: seq<Step>, id: Text)
    requires AllHeard(steps) && NoneUnsure(w)
    ensures Times(w, steps, id, Loosened) == 0 && NoneUnsure(Run(w, steps))
    decreases |steps|
  {
    if steps != [] {
      NextUnsure(w, steps[0]);
      assert forall i :: 0 <= i < |steps[1..]| ==> steps[1..][i] == steps[i + 1];
      HeardNeverLoosens(Next(w, steps[0]), steps[1..], id);
    }
  }

  /** Where no call fails its loop there is nothing to add: one turn for each time the owner asks. */
  lemma HeardDispatchesOnce(now: int, anyGrant: bool, before: seq<Step>, stretch: seq<Step>, id: Text)
    requires AllHeard(before) && AllHeard(stretch)
    ensures var start := Start(now, anyGrant); var w := Run(start, before);
      && Times(w, stretch, id, HandedOver) <= 1 + Times(w, stretch, id, Asked)
      && Times(start, before, id, HandedOver) <= Times(start, before, id, Asked)
  {
    HeardNeverLoosens(Start(now, anyGrant), before, id);
    HeardNeverLoosens(Run(Start(now, anyGrant), before), stretch, id);
    AtMostOneDispatch(now, anyGrant, before, stretch, id);
  }

  // ----------------------------------------------- and what it takes to be told twice

  /** The owner has been told twice since it last asked. */
  predicate ToldTwice(w: World, id: Text) { w.PastOf(id).handed > 1 }

  /** The owner is told twice after some steps that do not loosen the count. */
  ghost predicate CanTellTwice(w: World, id: Text) {
    exists steps :: Times(w, steps, id, Loosened) == 0 && ToldTwice(Run(w, steps), id)
  }

  /** The next claim of an entry, confirmed and handed over. */
  function HandOut(w: World, id: Text): seq<Step> {
    [ClaimEntry(id), ConfirmClaim(w.serial + 1), HandOver(w.serial + 1, true)]
  }

  predicate NoReturns(steps: seq<Step>) {
    forall i :: 0 <= i < |steps| ==> !steps[i].Return?
  }

  lemma {:induction false} NoReturnsLoosenNothing(w: World, steps: seq<Step>, id: Text)
    requires NoReturns(steps)
    ensures Times(w, steps, id, Loosened) == 0
    decreases |steps|
  {
    if steps != [] {
      assert forall i :: 0 <= i < |steps[1..]| ==> steps[1..][i] == steps[i + 1];
      NoReturnsLoosenNothing(Next(w, steps[0]), steps[1..], id);
    }
  }

  /** A pending entry can be handed out at once, with nobody asking. */
  lemma PendingIsHandedOut(w: World, id: Text)
    requires id in w.entries && w.entries[id].status == Pending
    ensures Run(w, HandOut(w, id)).PastOf(id).handed == w.PastOf(id).handed + 1
  {
    var s, k := HandOut(w, id), w.serial + 1;
    var w1 := GetNext(w, id);
    assert w1.held[k] == Held(id, w.now, Unsent) && w1.entries[id].claimedAt == Some(w.now);
    var w2 := ConfirmRequest(w1, k, true);
    assert w2.held[k] == Held(id, w.now, Granted);
    assert s[1..][1..] == s[2..] && s[2..][1..] == [];
    assert Run(w2, s[2..]) == Next(w2, s[2]) && Run(w1, s[1..]) == Run(w2, s[2..]);
  }

  /** From any world, after a loosening step the owner can be told twice with no more of them. */
  lemma LoosenedTellsTwice(w: World, step: Step, id: Text) returns (steps: seq<Step>)
    requires Loosens(w, step, id)
    ensures NoReturns(steps) && ToldTwice(Run(Next(w, step), steps), id)
  {
    var w1 := Next(w, step);
    assert forall k: nat :: LiveClaim(w, k, id) ==> LiveClaim(w1, k, id);
    if w.PastOf(id).handed > 0 {
      PendingIsHandedOut(w1, id);
      steps := HandOut(w1, id);
    } else {
      var k :| k in Live(w, id);
      assert LiveClaim(w, k, id) && LiveClaim(w1, k, id);
      var w2 := NotifyOwner(w1, k, true);
      PendingIsHandedOut(w2, id);
      var tell := [HandOver(k, true)];
      assert tell[1..] == [] && Run(w1, tell) == w2;
      steps := tell + HandOut(w2, id);
      RunJoin(w1, tell, HandOut(w2, id));
    }
  }

  /**
   * The condition is exact. After any run without a loosening step, a step can be
   * followed by a second turn for one asking, with no further such step, if and only if
   * it is one itself.
   */
  lemma LooseningIsTheWholeDifference(now: int, anyGrant: bool, before: seq<Step>, step: Step, id: Text)
    requires Times(Start(now, anyGrant), before, id, Loosened) == 0
    ensures var w := Run(Start(now, anyGrant), before);
      CanTellTwice(Next(w, step), id) <==> Loosens(w, step, id)
  {
    var w := Run(Start(now, anyGrant), before);
    if Loosens(w, step, id) {
      var steps := LoosenedTellsTwice(w, step, id);
      NoReturnsLoosenNothing(Next(w, step), steps, id);
    } else {
      RunOrderly(Start(now, anyGrant), before);
      NoneBefore(Start(now, anyGrant), id);
      StretchOpens(Start(now, anyGrant), before, id, 0);
      StepOpens(w, step, id, 0);
      NextOrderly(w, step);
      forall steps | Times(Next(w, step), steps, id, Loosened) == 0 ensures !ToldTwice(Run(Next(w, step), steps), id) {
        StretchOpens(Next(w, step), steps, id, 0);
      }
    }
  }

  /** A turn that arrives though its loop hears that it did not always ends in such a step, if the entry is returned. */
  lemma MisreportLoosens(now: int, anyGrant: bool, before: seq<Step>, serial: nat, clearMark: bool, id: Text)
    requires Times(Start(now, anyGrant), before, id, Loosened) == 0
    requires var w := Run(Start(now, anyGrant), before); HandsOver(w, HandOver(serial, false), id) && id in w.entries
    ensures Loosens(NotifyOwner(Run(Start(now, anyGrant), before), serial, false), Return(serial, clearMark), id)
  {
    RunOrderly(Start(now, anyGrant), before);
    NoneBefore(Start(now, anyGrant), id);
    StretchOpens(Start(now, anyGrant), before, id, 0);
    assert serial in Live(Run(Start(now, anyGrant), before), id);
  }

  /** A claimer that stalls past its lease while another confirms. */
  function Stalled(id: Text, meta: Meta): seq<Step> {
    [Enqueue(id, meta), ClaimEntry(id), Tick(QUEUE_CLAIM_LEASE_MS), ClaimEntry(id), ConfirmClaim(2)]
  }

  lemma StalledRuns(id: Text, meta: Meta)
    requires meta.status == Pending && meta.claimedAt.None?
    ensures var w := Run(Start(0, true), Stalled(id, meta));
      && w.held == map[1 := Held(id, 0, Unsent), 2 := Held(id, QUEUE_CLAIM_LEASE_MS, Granted)]
      && id in w.entries && Dispatched(w.entries[id]) && w.PastOf(id).handed == 0
  {
    var s, w2 := Stalled(id, meta), GetNext(AddRequest(Start(0, true), id, meta), id);
    FiveSteps(Start(0, true), s);
    assert w2.held == map[1 := Held(id, 0, Unsent)];
    var w4 := GetNext(Next(w2, Tick(QUEUE_CLAIM_LEASE_MS)), id);
    assert w4.held == map[1 := Held(id, 0, Unsent), 2 := Held(id, QUEUE_CLAIM_LEASE_MS, Unsent)];
  }

  lemma FiveSteps(w: World, s: seq<Step>)
    requires |s| == 5
    ensures Run(w, s) == Next(Next(Next(Next(Next(w, s[0]), s[1]), s[2]), s[3]), s[4])
  {
    TwoStepsRun(w, s[..2]);
    var w2 := Run(w, s[..2]);
    TwoStepsRun(w2, s[2..4]);
    RunJoin(w2, s[2..4], s[4..]);
    RunJoin(w, s[..2], s[2..]);
    assert s == s[..2] + s[2..] && s[2..] == s[2..4] + s[4..] && s[4..][1..] == [];
    assert Run(Run(w2, s[2..4]), s[4..]) == Next(Run(w2, s[2..4]), s[4]);
  }

  /** It is reached, by any request: the other tells the owner, and the first gets no answer. */
  lemma LooseningIsReached(id: Text, meta: Meta, clearMark: bool)
    requires meta.status == Pending && meta.claimedAt.None?
    ensures Loosens(Run(Start(0, true), Stalled(id, meta) + [HandOver(2, true), LoseAnswer(1, false)]), Return(1, clearMark), id)
  {
    var tail: seq<Step> := [HandOver(2, true), LoseAnswer(1, false)];
    StalledRuns(id, meta);
    RunJoin(Start(0, true), Stalled(id, meta), tail);
    TwoStepsRun(Run(Start(0, true), Stalled(id, meta)), tail);
  }

  /** It is reached in one more way: a message arrives and its sender hears that it failed. */
  lemma MisreportIsReached(id: Text, meta: Meta, clearMark: bool)
    requires meta.status == Pending && meta.claimedAt.None?
    ensures Loosens(Run(Start(0, true), [Enqueue(id, meta), ClaimEntry(id), ConfirmClaim(1), HandOver(1, false)]),
      Return(1, clearMark), id)
  {
    var s := [Enqueue(id, meta), ClaimEntry(id), ConfirmClaim(1), HandOver(1, false)];
    var w2 := GetNext(AddRequest(Start(0, true), id, meta), id);
    assert w2.held == map[1 := Held(id, 0, Unsent)];
    TwoStepsRun(Start(0, true), s[..2]);
    TwoStepsRun(w2, s[2..]);
    RunJoin(Start(0, true), s[..2], s[2..]);
    assert s == s[..2] + s[2..];
  }

  /** The other stops before it tells anyone, and the first gets no answer. */
  function Untold(id: Text, meta: Meta): seq<Step> {
    Stalled(id, meta) + [Abandon(2), LoseAnswer(1, false)]
  }

  lemma UntoldRuns(id: Text, meta: Meta)
    requires meta.status == Pending && meta.claimedAt.None?
    ensures var w := Run(Start(0, true), Untold(id, meta));
      w.held == map[1 := Held(id, 0, Unsure)] && id in w.entries && Dispatched(w.entries[id]) && w.PastOf(id).handed == 0
  {
    var tail: seq<Step> := [Abandon(2), LoseAnswer(1, false)];
    StalledRuns(id, meta);
    RunJoin(Start(0, true), Stalled(id, meta), tail);
    TwoStepsRun(Run(Start(0, true), Stalled(id, meta)), tail);
  }

  /** Then the first one's return overwrites a dispatched entry, and buys nothing. */
  lemma UntoldOverwriteIsHarmless(id: Text, meta: Meta, clearMark: bool)
    requires meta.status == Pending && meta.claimedAt.None?
    ensures var w := Run(Start(0, true), Untold(id, meta));
      && WritesPending(w, Return(1, clearMark), id) && Dispatched(w.entries[id])
      && !CanTellTwice(Next(w, Return(1, clearMark)), id)
  {
    UntoldRuns(id, meta);
    assert Live(Run(Start(0, true), Untold(id, meta)), id) == {};
    NoReturnsLoosenNothing(Start(0, true), Untold(id, meta), id);
    LooseningIsTheWholeDifference(0, true, Untold(id, meta), Return(1, clearMark), id);
  }

  // ------------------------------------------------------ whose claim is confirmed

  /** A step that makes the entry pending in the very millisecond of a claim that is still to be confirmed. */
  predicate Displaces(w: World, step: Step, id: Text) {
    var latest := w.PastOf(id).latest;
    && WritesPending(w, step, id)
    && latest in w.held && w.held[latest].id == id && w.held[latest].standing == Unsent
    && w.PastOf(id).stamp == w.now
  }

  ghost predicate Undisplaced(w: World, steps: seq<Step>, id: Text)
    decreases |steps|
  {
    steps == [] || (!Displaces(w, steps[0], id) && Undisplaced(Next(w, steps[0]), steps[1..], id))
  }

  /** Not the latest stamp, unless it is the latest claim's, and that one's only where it still tells it apart. */
  ghost predicate StampApart(w: World, id: Text, k: nat) {
    k in w.held && w.held[k].id == id && w.held[k].standing == Unsent ==>
      if k == w.PastOf(id).latest then
        id in w.entries ==> w.entries[id].claimedAt == Some(w.held[k].stamp) || w.held[k].stamp < w.now
      else w.held[k].stamp < w.PastOf(id).stamp
  }

  ghost predicate StampsApart(w: World, id: Text) {
    forall k :: k in w.held ==> StampApart(w, id, k)
  }

  lemma StampStaysApart(w: World, step: Step, id: Text, k: nat)
    requires EntryOk(w, id) && HeldOk(w, k) && StampsApart(w, id) && !Displaces(w, step, id)
    ensures StampApart(Next(w, step), id, k)
  {
    match step
    case ConfirmClaim(serial) => ConfirmStaysApart(w, serial, true, id, k);
    case LoseAnswer(serial, landed) =>
      if landed { ConfirmStaysApart(w, serial, false, id, k); }
    case Enqueue(_, _) => PendingStaysApart(w, step, id, k);
    case Retry(_) => PendingStaysApart(w, step, id, k);
    case Return(_, _) => PendingStaysApart(w, step, id, k);
    case ClaimEntry(claimed) => ClaimStaysApart(w, claimed, id, k);
    case _ =>
  }

  lemma PendingStaysApart(w: World, step: Step, id: Text, k: nat)
    requires EntryOk(w, id) && (k in w.held ==> StampApart(w, id, k)) && HeldOk(w, k) && !Displaces(w, step, id)
    requires step.Enqueue? || step.Retry? || step.Return?
    ensures StampApart(Next(w, step), id, k)
  {
  }

  lemma ClaimStaysApart(w: World, claimed: Text, id: Text, k: nat)
    requires EntryOk(w, id) && (k in w.held ==> StampApart(w, id, k)) && HeldOk(w, k)
    ensures StampApart(GetNext(w, claimed), id, k)
  {
  }

  lemma ConfirmStaysApart(w: World, serial: nat, answered: bool, id: Text, k: nat)
    requires EntryOk(w, id) && (k in w.held ==> StampApart(w, id, k)) && (serial in w.held ==> StampApart(w, id, serial))
    ensures StampApart(ConfirmRequest(w, serial, answered), id, k)
  {
  }

  lemma NextStampsApart(w: World, step: Step, id: Text)
    requires Orderly(w) && StampsApart(w, id) && !Displaces(w, step, id)
    ensures StampsApart(Next(w, step), id)
  {
    forall k: nat | k in Next(w, step).held ensures StampApart(Next(w, step), id, k) {
      assert EntryOk(w, id) && HeldOk(w, k) && (k in w.held ==> StampApart(w, id, k));
      StampStaysApart(w, step, id, k);
    }
  }

  lemma {:induction false} RunStampsApart(w: World, steps: seq<Step>, id: Text)
    requires Orderly(w) && StampsApart(w, id) && Undisplaced(w, steps, id)
    ensures StampsApart(Run(w, steps), id) && Orderly(Run(w, steps))
    decreases |steps|
  {
    if steps != [] {
      NextStampsApart(w, steps[0], id);
      NextOrderly(w, steps[0]);
      RunStampsApart(Next(w, steps[0]), steps[1..], id);
    }
  }

  lemma ConfirmedApart(w: World, step: Step, id: Text)
    requires Orderly(w) && StampsApart(w, id) && Confirms(w, step, id)
    ensures w.PastOf(id).latest == step.serial && w.now - w.held[step.serial].stamp < QUEUE_CLAIM_LEASE_MS
  {
    assert EntryOk(w, id) && StampApart(w, id, step.serial);
  }

  /** Unless a claim was displaced before, a confirmation is granted to the latest claimer alone, inside its lease. */
  lemma ConfirmedByLatestClaimer(now: int, anyGrant: bool, before: seq<Step>, step: Step, id: Text)
    requires Undisplaced(Start(now, anyGrant), before, id)
    requires Confirms(Run(Start(now, anyGrant), before), step, id)
    ensures var w := Run(Start(now, anyGrant), before);
      && w.PastOf(id).latest == step.serial
      && w.now - w.held[step.serial].stamp < QUEUE_CLAIM_LEASE_MS
  {
    RunStampsApart(Start(now, anyGrant), before, id);
    ConfirmedApart(Run(Start(now, anyGrant), before), step, id);
  }

  /** A confirmation is granted to a claimer that is not the latest. */
  predicate ConfirmsStale(w: World, step: Step, id: Text) {
    Confirms(w, step, id) && step.serial != w.PastOf(id).latest
  }

  ghost predicate CanConfirmStale(w: World, id: Text) {
    exists steps, last :: Undisplaced(w, steps, id) && ConfirmsStale(Run(w, steps), last, id)
  }

  /** A claim in the same millisecond takes a stamp that the displaced claimer holds too. */
  lemma DisplacedIsConfirmed(w: World, step: Step, id: Text)
    requires Orderly(w) && Displaces(w, step, id)
    ensures CanConfirmStale(Next(w, step), id)
  {
    var w1, k := Next(w, step), w.PastOf(id).latest;
    var again := [ClaimEntry(id)];
    assert HeldOk(w, k) && EntryOk(w, id);
    assert again[1..] == [] && Undisplaced(Next(w1, again[0]), again[1..], id);
    assert Run(w1, again) == GetNext(w1, id);
    assert ConfirmsStale(Run(w1, again), ConfirmClaim(k), id);
  }

  /**
   * The condition is exact here too: after any run that displaced no claim, a step can be
   * followed by a stale confirmation, with no claim displaced after it, if and only if it
   * displaces one.
   */
  lemma DisplacingIsTheWholeDifference(now: int, anyGrant: bool, before: seq<Step>, step: Step, id: Text)
    requires Undisplaced(Start(now, anyGrant), before, id)
    ensures var w := Run(Start(now, anyGrant), before);
      CanConfirmStale(Next(w, step), id) <==> Displaces(w, step, id)
  {
    var w := Run(Start(now, anyGrant), before);
    RunStampsApart(Start(now, anyGrant), before, id);
    if Displaces(w, step, id) {
      DisplacedIsConfirmed(w, step, id);
    } else {
      NextStampsApart(w, step, id);
      NextOrderly(w, step);
      forall steps, last | Undisplaced(Next(w, step), steps, id)
        ensures !ConfirmsStale(Run(Next(w, step), steps), last, id)
      {
        RunStampsApart(Next(w, step), steps, id);
        if Confirms(Run(Next(w, step), steps), last, id) {
          ConfirmedApart(Run(Next(w, step), steps), last, id);
        }
      }
    }
  }

  /** It is reached, by any request: a loop without an answer returns what another has just claimed. */
  lemma DisplacingIsReached(id: Text, meta: Meta, clearMark: bool)
    requires meta.status == Pending && meta.claimedAt.None?
    ensures Displaces(Run(Start(0, true), [Enqueue(id, meta), ClaimEntry(id), LoseAnswer(1, false),
      Tick(QUEUE_CLAIM_LEASE_MS), ClaimEntry(id)]), Return(1, clearMark), id)
  {
    var s := [Enqueue(id, meta), ClaimEntry(id), LoseAnswer(1, false), Tick(QUEUE_CLAIM_LEASE_MS), ClaimEntry(id)];
    var w2 := GetNext(AddRequest(Start(0, true), id, meta), id);
    assert w2.held == map[1 := Held(id, 0, Unsent)];
    var w4 := Next(Unheard(w2, 1), Tick(QUEUE_CLAIM_LEASE_MS));
    assert w4.held == map[1 := Held(id, 0, Unsure)];
    FiveSteps(Start(0, true), s);
  }
}
