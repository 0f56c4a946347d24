/**
 * Freeze and thaw: the deadline a rate-limit response arms, the probes owed after
 * it, and the ids of the probe completions already counted.
 */
module Freeze {
  import opened Numbers
  import opened Buckets

  /** A freeze with probes to come outlasts its window by seven days. */
  const FREEZE_PROBE_TTL_SECONDS: int := 604_800

  datatype FreezeState = FreezeState(frozenUntil: int, thawRequestCount: int)

  datatype StoredFreeze = StoredFreeze(state: FreezeState, emptiesBucket: bool)

  /** One freeze key and the set of completion ids kept beside it. */
  datatype FreezeCell = FreezeCell(freeze: Option<Entry<StoredFreeze>>, seen: Option<Entry<set<string>>>)
  {
    function Stored(now: int): Option<StoredFreeze> {
      if freeze.Some? && now < freeze.value.expiresAt then Some(freeze.value.value) else None
    }

    function Seen(now: int): set<string> {
      if seen.Some? && now < seen.value.expiresAt then seen.value.value else {}
    }
  }

  const NO_FREEZE: FreezeCell := FreezeCell(None, None)

  /** Truncation toward zero. */
  function Trunc(x: real): int {
    if x >= 0.0 then x.Floor else -((-x).Floor)
  }

  /** A field as the backends store it exactly: truncated, then clamped. */
  function Storable(x: real, min: int): int {
    var floor := MaxInt(Trunc(x), min);
    if floor <= MAX_SAFE_INTEGER then floor else MAX_SAFE_INTEGER
  }

  function Deadline(frozenUntil: real): int { Storable(frozenUntil, -MAX_SAFE_INTEGER) }

  function ProbesOwed(thawRequestCount: real): int { Storable(thawRequestCount, 0) }

  function FreezeTtlSeconds(s: FreezeState, now: int): int {
    MaxInt(CeilDiv(s.frozenUntil - now, 1000), 0)
      + (if s.thawRequestCount > 0 then FREEZE_PROBE_TTL_SECONDS else 60)
  }

  /** Field by field the larger of what stands and what is asked. */
  function Arm(c: FreezeCell, frozenUntil: real, thawRequestCount: real, emptiesBucket: bool, now: int): FreezeCell {
    var was := c.Stored(now);
    var until := if was.Some? && was.value.state.frozenUntil as real > frozenUntil
      then was.value.state.frozenUntil as real else frozenUntil;
    var thaw := if was.Some? && was.value.state.thawRequestCount as real > thawRequestCount
      then was.value.state.thawRequestCount as real else thawRequestCount;
    var empties := emptiesBucket
      || (was.Some? && was.value.state.frozenUntil > now && was.value.emptiesBucket);
    var state := FreezeState(Deadline(until), ProbesOwed(thaw));
    c.(freeze := Some(Entry(StoredFreeze(state, empties), now + FreezeTtlSeconds(state, now) * 1000)))
  }

  /** Remembers a completion id; an absent or empty one is not remembered. */
  function Record(c: FreezeCell, id: string, now: int): FreezeCell {
    if id == "" || id in c.Seen(now) then c
    else c.(seen := Some(Entry(c.Seen(now) + {id}, now + FREEZE_PROBE_TTL_SECONDS * 1000)))
  }

  /** A probe's outcome; `id` is empty when the caller gives none. */
  function UpdateThaw(c: FreezeCell, success: bool, id: string, now: int): (FreezeCell, Option<FreezeState>) {
    var alreadySeen := id != "" && id in c.Seen(now);
    var recorded := Record(c, id, now);
    var was := c.Stored(now);
    if was.None? then (recorded, None)
    else
      var s := was.value.state;
      if alreadySeen then (recorded, Some(s))
      else if now >= s.frozenUntil && s.thawRequestCount <= 0 then (recorded.(freeze := None), None)
      else if !success then (recorded, Some(s))
      else
        var left := s.(thawRequestCount := MaxInt(0, s.thawRequestCount - 1));
        if left.thawRequestCount == 0 && now >= s.frozenUntil then (recorded.(freeze := None), None)
        else
          (recorded.(freeze := Some(Entry(was.value.(state := left), now + FreezeTtlSeconds(left, now) * 1000))),
           Some(left))
  }

  /** The stored freeze, unless its window is over and no probe is to come. */
  function Read(c: FreezeCell, now: int): Option<FreezeState> {
    var was := c.Stored(now);
    if was.None? || (now >= was.value.state.frozenUntil && was.value.state.thawRequestCount <= 0) then None
    else Some(was.value.state)
  }

  function CanProcess(c: FreezeCell, now: int): bool {
    var s := Read(c, now);
    s.None? || now >= s.value.frozenUntil
  }

  /** In force, in the fast paths' sense. */
  function BlocksAdmission(c: FreezeCell, now: int): bool {
    var was := c.Stored(now);
    was.Some? && (now < was.value.state.frozenUntil || was.value.state.thawRequestCount > 0)
  }

  /** A standing freeze that took the bucket's tokens; until it ends nothing is paid back. */
  function Emptied(c: FreezeCell, now: int): bool {
    var was := c.Stored(now);
    was.Some? && was.value.state.frozenUntil > now && was.value.emptiesBucket
  }

  // --------------------------------------------------------------- whole runs

  datatype FreezeStep =
    | ArmStep(frozenUntil: real, thawRequestCount: real, emptiesBucket: bool, now: int)
    | ThawStep(success: bool, id: string, now: int)

  function ApplyFreeze(c: FreezeCell, step: FreezeStep): FreezeCell {
    match step
    case ArmStep(until, thaw, empties, now) => Arm(c, until, thaw, empties, now)
    case ThawStep(success, id, now) => UpdateThaw(c, success, id, now).0
  }

  function RunFreeze(c: FreezeCell, steps: seq<FreezeStep>): FreezeCell
    decreases |steps|
  {
    if steps == [] then c else RunFreeze(ApplyFreeze(c, steps[0]), steps[1..])
  }

  /** A stored freeze is in storable range and its key outlives its window. */
  ghost predicate Kept(c: FreezeCell) {
    c.freeze.Some? ==>
      var s := c.freeze.value.value.state;
      && -MAX_SAFE_INTEGER <= s.frozenUntil <= MAX_SAFE_INTEGER
      && 0 <= s.thawRequestCount <= MAX_SAFE_INTEGER
      && s.frozenUntil < c.freeze.value.expiresAt
  }

  lemma TtlCoversWindow(s: FreezeState, now: int)
    ensures now + FreezeTtlSeconds(s, now) * 1000 >= MaxInt(now, s.frozenUntil) + 60_000
    ensures s.thawRequestCount > 0 ==>
      now + FreezeTtlSeconds(s, now) * 1000 >= MaxInt(now, s.frozenUntil) + FREEZE_PROBE_TTL_SECONDS * 1000
  {
  }

  lemma StorableGrows(x: real, y: real, min: int)
    requires x <= y && -MAX_SAFE_INTEGER <= min <= MAX_SAFE_INTEGER
    ensures min <= Storable(x, min) <= Storable(y, min) <= MAX_SAFE_INTEGER
  {
  }

  lemma StorableInteger(n: int, min: int)
    requires min <= n <= MAX_SAFE_INTEGER
    ensures Storable(n as real, min) == n
  {
  }

  lemma ArmKeeps(c: FreezeCell, frozenUntil: real, thawRequestCount: real, emptiesBucket: bool, now: int)
    requires Kept(c)
    ensures var armed := Arm(c, frozenUntil, thawRequestCount, emptiesBucket, now);
      && Kept(armed) && armed.freeze.Some? && armed.seen == c.seen
      && var s := armed.freeze.value.value.state;
      && s.frozenUntil >= Deadline(frozenUntil) && s.thawRequestCount >= ProbesOwed(thawRequestCount)
      && (c.Stored(now).Some? ==>
          && s.frozenUntil >= c.Stored(now).value.state.frozenUntil
          && s.thawRequestCount >= c.Stored(now).value.state.thawRequestCount)
      && (s.thawRequestCount > 0 ==> armed.freeze.value.expiresAt >= now + FREEZE_PROBE_TTL_SECONDS * 1000)
  {
    var armed := Arm(c, frozenUntil, thawRequestCount, emptiesBucket, now);
    var s := armed.freeze.value.value.state;
    TtlCoversWindow(s, now);
    StorableGrows(frozenUntil, frozenUntil, -MAX_SAFE_INTEGER);
    StorableGrows(thawRequestCount, thawRequestCount, 0);
    if c.Stored(now).Some? {
      var was := c.Stored(now).value.state;
      StorableInteger(was.frozenUntil, -MAX_SAFE_INTEGER);
      StorableInteger(was.thawRequestCount, 0);
      if was.frozenUntil as real > frozenUntil {
        StorableGrows(frozenUntil, was.frozenUntil as real, -MAX_SAFE_INTEGER);
      } else {
        StorableGrows(was.frozenUntil as real, frozenUntil, -MAX_SAFE_INTEGER);
      }
      if was.thawRequestCount as real > thawRequestCount {
        StorableGrows(thawRequestCount, was.thawRequestCount as real, 0);
      } else {
        StorableGrows(was.thawRequestCount as real, thawRequestCount, 0);
      }
    }
  }

  lemma ApplyKept(c: FreezeCell, step: FreezeStep)
    requires Kept(c)
    ensures Kept(ApplyFreeze(c, step))
  {
    if step.ArmStep? {
      ArmKeeps(c, step.frozenUntil, step.thawRequestCount, step.emptiesBucket, step.now);
    }
  }

  lemma {:induction false} RunKept(c: FreezeCell, steps: seq<FreezeStep>)
    requires Kept(c)
    ensures Kept(RunFreeze(c, steps))
    decreases |steps|
  {
    if steps != [] {
      ApplyKept(c, steps[0]);
      RunKept(ApplyFreeze(c, steps[0]), steps[1..]);
    }
  }

  // -------------------------------------------------- a freeze is never cut short

  ghost predicate FrozenPast(c: FreezeCell, deadline: int) {
    Kept(c) && c.freeze.Some? && c.freeze.value.value.state.frozenUntil >= deadline
  }

  lemma ApplyFrozenPast(c: FreezeCell, step: FreezeStep, deadline: int)
    requires FrozenPast(c, deadline) && step.now < deadline
    ensures FrozenPast(ApplyFreeze(c, step), deadline)
  {
    ApplyKept(c, step);
    if step.ArmStep? {
      ArmKeeps(c, step.frozenUntil, step.thawRequestCount, step.emptiesBucket, step.now);
    }
  }

  lemma {:induction false} RunFrozenPast(c: FreezeCell, steps: seq<FreezeStep>, deadline: int)
    requires FrozenPast(c, deadline)
    requires forall i :: 0 <= i < |steps| ==> steps[i].now < deadline
    ensures FrozenPast(RunFreeze(c, steps), deadline)
    decreases |steps|
  {
    if steps != [] {
      ApplyFrozenPast(c, steps[0], deadline);
      RunFrozenPast(ApplyFreeze(c, steps[0]), steps[1..], deadline);
    }
  }

  /**
   * Whatever came before an arm and whatever comes after it, arms for less and probes
   * reporting success included: until its stored deadline no request is processed
   * and every fast path declines.
   */
  lemma FreezeNeverCutShort(before: seq<FreezeStep>, arm: FreezeStep, after: seq<FreezeStep>, t: int)
    requires arm.ArmStep? && t < Deadline(arm.frozenUntil)
    requires forall i :: 0 <= i < |after| ==> after[i].now <= t
    ensures var c := RunFreeze(ApplyFreeze(RunFreeze(NO_FREEZE, before), arm), after);
      !CanProcess(c, t) && BlocksAdmission(c, t)
  {
    var c := RunFreeze(NO_FREEZE, before);
    RunKept(NO_FREEZE, before);
    ArmKeeps(c, arm.frozenUntil, arm.thawRequestCount, arm.emptiesBucket, arm.now);
    RunFrozenPast(ApplyFreeze(c, arm), after, Deadline(arm.frozenUntil));
  }

  /** Whether a deadline loses something on its way into the store: a fraction, or what lies past the range. */
  predicate LosesTime(requested: real) {
    requested >= 0.0 && (requested.Floor as real != requested || requested > MAX_SAFE_INTEGER as real)
  }

  lemma StoredEarlierExactly(requested: real)
    ensures Deadline(requested) as real < requested <==> LosesTime(requested)
    ensures LosesTime(requested) ==> requested.Floor >= Deadline(requested)
  {
  }

  /** A request is processed at `t`, inside the window that was asked for. */
  predicate ProcessedEarly(c: FreezeCell, requested: real, now: int, t: int) {
    now <= t && t as real < requested && CanProcess(c, t)
  }

  /**
   * What an arm can fall short of what it was asked, exactly: a freeze armed alone at
   * `now` lets a request through inside the window it asked for if and only if that window
   * is still open and its deadline is fractional or past the storable range.
   */
  lemma CutShortExactly(requested: real, thawRequestCount: real, emptiesBucket: bool, now: int)
    ensures var c := Arm(NO_FREEZE, requested, thawRequestCount, emptiesBucket, now);
      (exists t :: ProcessedEarly(c, requested, now, t)) <==> now as real < requested && LosesTime(requested)
  {
    var c := Arm(NO_FREEZE, requested, thawRequestCount, emptiesBucket, now);
    StoredEarlierExactly(requested);
    TtlCoversWindow(c.freeze.value.value.state, now);
    if now as real < requested && LosesTime(requested) {
      assert ProcessedEarly(c, requested, now, MaxInt(now, Deadline(requested)));
    }
  }

  // ---------------------------------------------------- the probe budget is paid

  /** `id` was recorded at `u` or later and is remembered for its whole lifetime. */
  ghost predicate Remembers(c: FreezeCell, id: string, u: int) {
    && c.seen.Some? && id in c.seen.value.value
    && u + FREEZE_PROBE_TTL_SECONDS * 1000 <= c.seen.value.expiresAt
  }

  ghost predicate During(steps: seq<FreezeStep>, first: int, last: int) {
    forall i :: 0 <= i < |steps| ==> first <= steps[i].now <= last
  }

  lemma {:induction false} RunRemembers(c: FreezeCell, steps: seq<FreezeStep>, id: string, u: int, last: int)
    requires Remembers(c, id, u) && During(steps, u, last) && last < u + FREEZE_PROBE_TTL_SECONDS * 1000
    ensures Remembers(RunFreeze(c, steps), id, u)
    decreases |steps|
  {
    if steps != [] {
      assert Remembers(ApplyFreeze(c, steps[0]), id, u);
      RunRemembers(ApplyFreeze(c, steps[0]), steps[1..], id, u, last);
    }
  }

  /**
   * A completion delivered again within the probe lifetime changes nothing, whether
   * a freeze stood at its first delivery or was armed afterwards.
   */
  lemma RedeliveryChangesNothing(c: FreezeCell, success: bool, id: string, u: int, steps: seq<FreezeStep>,
        again: bool, now: int)
    requires id != "" && Remembers(UpdateThaw(c, success, id, u).0, id, u)
    requires During(steps, u, now) && u <= now < u + FREEZE_PROBE_TTL_SECONDS * 1000
    ensures var c' := RunFreeze(UpdateThaw(c, success, id, u).0, steps);
      UpdateThaw(c', again, id, now).0 == c'
  {
    RunRemembers(UpdateThaw(c, success, id, u).0, steps, id, u, now);
  }

  /** A first delivery is remembered. */
  lemma DeliveryIsRemembered(c: FreezeCell, success: bool, id: string, u: int)
    requires id != ""
    ensures id !in c.Seen(u) ==> Remembers(UpdateThaw(c, success, id, u).0, id, u)
    ensures id in UpdateThaw(c, success, id, u).0.Seen(u)
  {
  }

  /**
   * A run watched from an arm on: `paid` are the ids whose first delivery took a
   * probe off the budget, `anonymous` the successes that came without an id.
   */
  datatype Payment = Payment(cell: FreezeCell, paid: set<string>, anonymous: nat)
  {
    ghost function Total(): nat { |paid| + anonymous }
  }

  /** Whether a step takes a probe off the budget of the freeze that stands. */
  predicate Pays(c: FreezeCell, step: FreezeStep) {
    && step.ThawStep? && step.success
    && c.Stored(step.now).Some?
    && !(step.id != "" && step.id in c.Seen(step.now))
  }

  function ObservePayment(p: Payment, step: FreezeStep): Payment {
    Payment(
      ApplyFreeze(p.cell, step),
      if Pays(p.cell, step) && step.id != "" then p.paid + {step.id} else p.paid,
      if Pays(p.cell, step) && step.id == "" then p.anonymous + 1 else p.anonymous)
  }

  function ObservePayments(p: Payment, steps: seq<FreezeStep>): Payment
    decreases |steps|
  {
    if steps == [] then p else ObservePayments(ObservePayment(p, steps[0]), steps[1..])
  }

  /** Armed at `armed` for `owed` probes: what is not yet paid is still owed, and stored. */
  ghost predicate Owing(p: Payment, owed: int, armed: int) {
    && Kept(p.cell)
    && (forall id :: id in p.paid ==> Remembers(p.cell, id, armed))
    && (p.Total() < owed ==>
        && p.cell.freeze.Some?
        && p.cell.freeze.value.value.state.thawRequestCount >= owed - p.Total()
        && p.cell.freeze.value.expiresAt >= armed + FREEZE_PROBE_TTL_SECONDS * 1000)
  }

  lemma ArmOwing(p: Payment, step: FreezeStep, owed: int, armed: int)
    requires Owing(p, owed, armed) && armed <= step.now < armed + FREEZE_PROBE_TTL_SECONDS * 1000 && step.ArmStep?
    ensures Owing(ObservePayment(p, step), owed, armed)
  {
    ArmKeeps(p.cell, step.frozenUntil, step.thawRequestCount, step.emptiesBucket, step.now);
  }

  lemma ThawOwing(p: Payment, step: FreezeStep, owed: int, armed: int)
    requires Owing(p, owed, armed) && armed <= step.now < armed + FREEZE_PROBE_TTL_SECONDS * 1000 && step.ThawStep?
    ensures Owing(ObservePayment(p, step), owed, armed)
  {
    var next := ObservePayment(p, step);
    ApplyKept(p.cell, step);
    forall id | id in next.paid ensures Remembers(next.cell, id, armed) {
    }
    if Pays(p.cell, step) && step.id != "" {
      assert step.id !in p.paid;
      assert |next.paid| == |p.paid| + 1;
    }
    if p.Total() < owed {
      var s := p.cell.freeze.value.value.state;
      if s.thawRequestCount > 1 {
        TtlCoversWindow(s.(thawRequestCount := s.thawRequestCount - 1), step.now);
      }
    }
  }

  lemma {:induction false} RunOwing(p: Payment, steps: seq<FreezeStep>, owed: int, armed: int, last: int)
    requires Owing(p, owed, armed) && During(steps, armed, last) && last < armed + FREEZE_PROBE_TTL_SECONDS * 1000
    ensures Owing(ObservePayments(p, steps), owed, armed)
    decreases |steps|
  {
    if steps != [] {
      if steps[0].ArmStep? { ArmOwing(p, steps[0], owed, armed); } else { ThawOwing(p, steps[0], owed, armed); }
      RunOwing(ObservePayment(p, steps[0]), steps[1..], owed, armed, last);
    }
  }

  lemma {:induction false} ObservePaymentsRun(p: Payment, steps: seq<FreezeStep>)
    ensures ObservePayments(p, steps).cell == RunFreeze(p.cell, steps)
    decreases |steps|
  {
    if steps != [] {
      ObservePaymentsRun(ObservePayment(p, steps[0]), steps[1..]);
    }
  }

  /**
   * After any arm owing probes, and within the probe lifetime, the client reads as
   * unfrozen only once that many successes have been counted: one for each distinct
   * id delivered for the first time, and one for each success without an id.
   */
  lemma ProbeBudgetIsPaid(before: seq<FreezeStep>, arm: FreezeStep, after: seq<FreezeStep>, t: int)
    requires arm.ArmStep? && During(after, arm.now, t) && arm.now <= t < arm.now + FREEZE_PROBE_TTL_SECONDS * 1000
    ensures
      var p := ObservePayments(Payment(ApplyFreeze(RunFreeze(NO_FREEZE, before), arm), {}, 0), after);
      && p.cell == RunFreeze(ApplyFreeze(RunFreeze(NO_FREEZE, before), arm), after)
      && (Read(p.cell, t).None? ==> p.Total() >= ProbesOwed(arm.thawRequestCount))
      && (!BlocksAdmission(p.cell, t) ==> p.Total() >= ProbesOwed(arm.thawRequestCount))
  {
    var c := RunFreeze(NO_FREEZE, before);
    RunKept(NO_FREEZE, before);
    ArmKeeps(c, arm.frozenUntil, arm.thawRequestCount, arm.emptiesBucket, arm.now);
    var start := Payment(ApplyFreeze(c, arm), {}, 0);
    RunOwing(start, after, ProbesOwed(arm.thawRequestCount), arm.now, t);
    ObservePaymentsRun(start, after);
  }

  // ------------------------------------------------ and the budget paid ends the freeze

  /** Successful probes, each with an id of its own. */
  ghost predicate Probes(steps: seq<FreezeStep>, c: FreezeCell, first: int, last: int) {
    && During(steps, first, last)
    && (forall i :: 0 <= i < |steps| ==> steps[i].ThawStep? && steps[i].success && steps[i].id != "")
    && (forall i :: 0 <= i < |steps| ==> c.seen.None? || steps[i].id !in c.seen.value.value)
    && forall i, j :: 0 <= i < j < |steps| ==> steps[i].id != steps[j].id
  }

  lemma OneProbe(c: FreezeCell, id: string, now: int)
    requires c.Stored(now).Some? && id != "" && id !in c.Seen(now)
    requires now >= c.Stored(now).value.state.frozenUntil && c.Stored(now).value.state.thawRequestCount > 0
    ensures var d, s := UpdateThaw(c, true, id, now).0, c.Stored(now).value.state;
      if s.thawRequestCount == 1 then d.freeze.None?
      else
        && d.freeze.Some? && d.freeze.value.value.state == s.(thawRequestCount := s.thawRequestCount - 1)
        && d.freeze.value.expiresAt >= now + FREEZE_PROBE_TTL_SECONDS * 1000
  {
    var s := c.Stored(now).value.state;
    if s.thawRequestCount > 1 {
      TtlCoversWindow(s.(thawRequestCount := s.thawRequestCount - 1), now);
    }
  }

  /**
   * Past its window, a freeze that owes `owed` probes stands for exactly that many
   * successes: one fewer leaves it in force, and the last one lifts it.
   */
  lemma {:induction false} ProbesLiftFreeze(c: FreezeCell, steps: seq<FreezeStep>, first: int, last: int, owed: nat)
    requires c.freeze.Some? && c.freeze.value.value.state.frozenUntil <= first <= last < c.freeze.value.expiresAt
    requires last < first + FREEZE_PROBE_TTL_SECONDS * 1000
    requires c.freeze.value.value.state.thawRequestCount == owed && 0 < owed
    requires Probes(steps, c, first, last)
    ensures RunFreeze(c, steps).Stored(last).None? <==> |steps| >= owed
    ensures Read(RunFreeze(c, steps), last).None? <==> |steps| >= owed
    decreases |steps|
  {
    if steps != [] {
      var step, rest := steps[0], steps[1..];
      var d := ApplyFreeze(c, step);
      OneProbe(c, step.id, step.now);
      assert forall i :: 0 <= i < |rest| ==> rest[i] == steps[i + 1];
      assert forall i :: 0 <= i < |rest| ==> d.seen.Some? && rest[i].id !in d.seen.value.value;
      if owed == 1 {
        LiftedStaysLifted(d, rest);
      } else {
        ProbesLiftFreeze(d, rest, first, last, owed - 1);
      }
    }
  }

  lemma {:induction false} LiftedStaysLifted(c: FreezeCell, steps: seq<FreezeStep>)
    requires c.freeze.None? && forall i :: 0 <= i < |steps| ==> steps[i].ThawStep?
    ensures RunFreeze(c, steps).freeze.None?
    decreases |steps|
  {
    if steps != [] {
      LiftedStaysLifted(ApplyFreeze(c, steps[0]), steps[1..]);
    }
  }

  // ------------------------------------------------ while the bucket stays emptied

  /** The freeze that stands took the bucket's tokens and lasts to `deadline` at least. */
  ghost predicate EmptiedPast(c: FreezeCell, deadline: int) {
    FrozenPast(c, deadline) && c.freeze.value.value.emptiesBucket
  }

  lemma {:induction false} RunEmptiedPast(c: FreezeCell, steps: seq<FreezeStep>, deadline: int)
    requires EmptiedPast(c, deadline)
    requires forall i :: 0 <= i < |steps| ==> steps[i].now < deadline
    ensures EmptiedPast(RunFreeze(c, steps), deadline)
    decreases |steps|
  {
    if steps != [] {
      ApplyFrozenPast(c, steps[0], deadline);
      RunEmptiedPast(ApplyFreeze(c, steps[0]), steps[1..], deadline);
    }
  }

  /**
   * An arm that empties the bucket, or comes on top of a freeze that has, leaves it emptied
   * to the deadline then stored, whatever is armed or reported meanwhile; an arm that does
   * neither leaves it as not emptied at once.
   */
  lemma EmptiedToTheEnd(before: seq<FreezeStep>, arm: FreezeStep, after: seq<FreezeStep>, t: int)
    requires arm.ArmStep? && forall i :: 0 <= i < |after| ==> after[i].now <= t
    ensures var c := RunFreeze(NO_FREEZE, before);
      var armed := ApplyFreeze(c, arm);
      && armed.freeze.Some?
      && (if arm.emptiesBucket || Emptied(c, arm.now)
          then t < armed.freeze.value.value.state.frozenUntil ==> Emptied(RunFreeze(armed, after), t)
          else forall later :: !Emptied(armed, later))
  {
    var c := RunFreeze(NO_FREEZE, before);
    var armed := ApplyFreeze(c, arm);
    RunKept(NO_FREEZE, before);
    ArmKeeps(c, arm.frozenUntil, arm.thawRequestCount, arm.emptiesBucket, arm.now);
    if (arm.emptiesBucket || Emptied(c, arm.now)) && t < armed.freeze.value.value.state.frozenUntil {
      RunEmptiedPast(armed, after, armed.freeze.value.value.state.frozenUntil);
    }
  }

  // ------------------------------------------------------- what is read afterwards

  /** The three reads agree: admission is blocked just while a freeze is read, and processing up to its deadline. */
  lemma ReadsAgree(c: FreezeCell, now: int)
    ensures BlocksAdmission(c, now) <==> Read(c, now).Some?
    ensures CanProcess(c, now) <==> (Read(c, now).Some? ==> Read(c, now).value.frozenUntil <= now)
    ensures Emptied(c, now) ==> !CanProcess(c, now)
  {
  }

  /** A completion that comes again, on a freeze whose window is over and which owes no probe. */
  predicate StaleRedelivery(c: FreezeCell, id: string, now: int) {
    id != "" && id in c.Seen(now) && c.Stored(now).Some? && Read(c, now).None?
  }

  /**
   * A probe's report is answered with what is read afterwards, exactly but for a stale
   * redelivery, which is answered with the freeze that is over.
   */
  lemma ThawAnswersWhatIsRead(c: FreezeCell, success: bool, id: string, now: int)
    requires Kept(c)
    ensures var (after, answer) := UpdateThaw(c, success, id, now);
      && (answer == Read(after, now) <==> !StaleRedelivery(c, id, now))
      && (StaleRedelivery(c, id, now) ==> answer == Some(c.Stored(now).value.state) && after == c)
  {
    if c.Stored(now).Some? {
      var s := c.Stored(now).value.state;
      TtlCoversWindow(s.(thawRequestCount := MaxInt(0, s.thawRequestCount - 1)), now);
    }
  }

  /** And there are such: a completion seen, a freeze without probes armed and over, and it comes again. */
  lemma StaleRedeliveryIsReached(id: string)
    requires id != ""
    ensures var steps := [ThawStep(true, id, 0), ArmStep(1000.0, 0.0, false, 0)];
      StaleRedelivery(RunFreeze(NO_FREEZE, steps), id, 2000)
  {
    var seen := ApplyFreeze(NO_FREEZE, ThawStep(true, id, 0));
    var armed := ApplyFreeze(seen, ArmStep(1000.0, 0.0, false, 0));
    assert [ThawStep(true, id, 0), ArmStep(1000.0, 0.0, false, 0)][1..] == [ArmStep(1000.0, 0.0, false, 0)];
    assert RunFreeze(seen, [ArmStep(1000.0, 0.0, false, 0)]) == RunFreeze(armed, []);
    assert Deadline(1000.0) == 1000 && ProbesOwed(0.0) == 0;
    TtlCoversWindow(FreezeState(1000, 0), 0);
  }

  // ------------------------------------------------------- a freeze that owes no probe

  /** The freeze, if there is one, owes no probe and is over at `end`. */
  ghost predicate OverBy(c: FreezeCell, end: int) {
    Kept(c) && (c.freeze.Some? ==>
      c.freeze.value.value.state.thawRequestCount == 0 && c.freeze.value.value.state.frozenUntil <= end)
  }

  lemma ApplyOverBy(c: FreezeCell, step: FreezeStep, end: int)
    requires OverBy(c, end) && (step.ArmStep? ==> Deadline(step.frozenUntil) <= end && ProbesOwed(step.thawRequestCount) == 0)
    ensures OverBy(ApplyFreeze(c, step), end)
  {
    ApplyKept(c, step);
    if step.ArmStep? && c.Stored(step.now).Some? {
      StorableInteger(c.Stored(step.now).value.state.frozenUntil, -MAX_SAFE_INTEGER);
    }
  }

  /** Armed without probes it ends by itself: past the last deadline nothing is blocked, in every run. */
  lemma {:induction false} FreezeEndsByItself(c: FreezeCell, steps: seq<FreezeStep>, end: int, t: int)
    requires OverBy(c, end) && end <= t
    requires forall i :: 0 <= i < |steps| && steps[i].ArmStep? ==>
      Deadline(steps[i].frozenUntil) <= end && ProbesOwed(steps[i].thawRequestCount) == 0
    ensures var d := RunFreeze(c, steps);
      Read(d, t).None? && CanProcess(d, t) && !BlocksAdmission(d, t)
    decreases |steps|
  {
    if steps != [] {
      ApplyOverBy(c, steps[0], end);
      FreezeEndsByItself(ApplyFreeze(c, steps[0]), steps[1..], end, t);
    }
  }
}
