/**
 * The admission protocol of one queue: any number of drain loops, on any number of
 * replicas that all believe they are the controller, claiming, confirming, returning
 * and handing over entries in any interleaving, stopping anywhere, their leases
 * lapsing under them and answers lost. Every backend operation is one step.
 */
module Dispatch {
  import opened Numbers
  import opened MemberOrder
  import opened QueueEntry

  /**
   * How far a loop has got with a claim: not confirmed, told that it is confirmed, or
   * left by a failed call with no more to do than to return it.
   */
  datatype Standing = Unsent | Granted | Unsure

  /** A claim some loop has in hand. */
  datatype Held = Held(id: Text, stamp: int, standing: Standing)

  /**
   * The history of one entry: the serial number of its latest claim and when that was
   * made, the turns handed to its owner since it last asked for one, and the claim under
   * which a nomination last marked it.
   */
  datatype Past = Past(latest: nat, stamp: int, handed: nat, nominated: nat)

  /**
   * `held` is keyed by serial number, one for each claim ever made; no code sees it.
   * `past` has the history of every id ever queued.
   */
  datatype World = World(
    now: int,
    anyGrant: bool,
    entries: map<Text, Meta>,
    held: map<nat, Held>,
    serial: nat,
    past: map<Text, Past>)
  {
    function PastOf(id: Text): Past { if id in past then past[id] else Past(0, 0, 0, 0) }

    function Write(id: Text, m: Meta, p: Past): World {
      this.(entries := entries[id := m], past := past[id := p])
    }

    function Drop(serial: nat): World {
      this.(held := held - {serial})
    }
  }

  function Start(now: int, anyGrant: bool): World {
    World(now, anyGrant, map[], map[], 0, map[])
  }

  datatype Step =
    /** Time passes. */
    | Tick(ms: nat)
    /** An owner queues a request, or queues it again for an attempt whose entry is gone. */
    | Enqueue(id: Text, meta: Meta)
    /** A loop is handed the entry by `getNextRequest`. */
    | ClaimEntry(id: Text)
    /** A loop nominates the entry it has in hand, however stale its claim. */
    | Nominate(serial: nat)
    /** A loop confirms; refused, it writes nothing more and drops the claim. */
    | ConfirmClaim(serial: nat)
    /** A loop confirms and hears nothing back, whether or not the backend did. */
    | LoseAnswer(serial: nat, landed: bool)
    /** A loop whose confirmation was granted, or which was failed by a call, returns the entry. */
    | Return(serial: nat, clearMark: bool)
    /** A loop whose claim is confirmed notifies the owner, and may be told that it failed to. */
    | HandOver(serial: nat, reported: bool)
    /** A loop stops, or its process dies, with the claim in hand. */
    | Abandon(serial: nat)
    /** The owner, having been handed its turn, asks for another attempt. */
    | Retry(id: Text)
    /** The entry completes, is abandoned by its owner, swept, or expires. */
    | Vanish(id: Text)

  /**
   * Asked of every entry; `QueueRuns.ContestedIsScanned` shows that the queue's scan, which
   * goes through the sorted set alone, comes to the same while its keys live as they do.
   */
  predicate Competes(w: World, other: Text, id: Text, grantId: string) {
    other != id && other in w.entries && CompetingProbe(w.entries[other], grantId, w.anyGrant, w.now)
  }

  /** Whether a nomination of `id` finds another probe under way in its scope. */
  predicate Contested(w: World, id: Text)
    requires id in w.entries
  {
    exists other :: other in w.entries && Competes(w, other, id, w.entries[id].grantId)
  }

  /** Whether adding the request creates an entry its owner is waiting on. */
  predicate Addable(w: World, id: Text, meta: Meta) {
    && id !in w.entries && meta.status == Pending && meta.claimedAt.None?
    && (id in w.past ==> w.PastOf(id).handed > 0)
  }

  function AddRequest(w: World, id: Text, meta: Meta): World {
    if !Addable(w, id, meta) then w else w.Write(id, meta, w.PastOf(id).(handed := 0))
  }

  function GetNext(w: World, id: Text): World {
    if id !in w.entries || !Claimable(w.entries[id], w.now) then w
    else
      var k := w.serial + 1;
      w.Write(id, QueueEntry.Claim(w.entries[id], w.now), w.PastOf(id).(latest := k, stamp := w.now)).(
        held := w.held[k := Held(id, w.now, Unsent)], serial := k)
  }

  /** A nomination takes effect on an entry that is there and finds no competing probe. */
  function TryStartThaw(w: World, serial: nat): World {
    if serial !in w.held then w
    else
      var id := w.held[serial].id;
      if id !in w.entries || Contested(w, id) then w
      else w.Write(id, w.entries[id].(isThawRequest := true), w.PastOf(id).(nominated := w.PastOf(id).latest))
  }

  function ConfirmRequest(w: World, serial: nat, answered: bool): World {
    if serial !in w.held || w.held[serial].standing != Unsent then w
    else
      var h := w.held[serial];
      var told := h.(standing := if answered then Granted else Unsure);
      if h.id in w.entries && Confirmable(w.entries[h.id], h.stamp, w.now) then
        w.(entries := w.entries[h.id := w.entries[h.id].(claimedAt := None)], held := w.held[serial := told])
      else if answered then w.Drop(serial)
      else w.(held := w.held[serial := told])
  }

  /** A confirmation that never reached the backend; the loop cannot tell. */
  function Unheard(w: World, serial: nat): World {
    if serial !in w.held || w.held[serial].standing != Unsent then w
    else w.(held := w.held[serial := w.held[serial].(standing := Unsure)])
  }

  function ReturnToQueue(w: World, serial: nat, clearMark: bool): World {
    if serial !in w.held || w.held[serial].standing == Unsent then w
    else
      var id := w.held[serial].id;
      if id !in w.entries then w.Drop(serial)
      else
        var m := WriteStatus(w.entries[id], Pending);
        w.Drop(serial).(entries := w.entries[id := if clearMark then m.(isThawRequest := false) else m])
  }

  /** The owner is told; a loop that hears its message failed has only the return left. */
  function NotifyOwner(w: World, serial: nat, reported: bool): World {
    if serial !in w.held || w.held[serial].standing != Granted then w
    else
      var id := w.held[serial].id;
      var told := w.(past := w.past[id := w.PastOf(id).(handed := w.PastOf(id).handed + 1)]);
      if reported then told.Drop(serial)
      else told.(held := w.held[serial := w.held[serial].(standing := Unsure)])
  }

  function AskAgain(w: World, id: Text): World {
    if id !in w.entries || w.PastOf(id).handed == 0 then w
    else w.Write(id, WriteStatus(w.entries[id], Pending), w.PastOf(id).(handed := 0))
  }

  function Next(w: World, step: Step): World {
    match step
    case Tick(ms) => w.(now := w.now + ms)
    case Enqueue(id, meta) => AddRequest(w, id, meta)
    case ClaimEntry(id) => GetNext(w, id)
    case Nominate(serial) => TryStartThaw(w, serial)
    case ConfirmClaim(serial) => ConfirmRequest(w, serial, true)
    case LoseAnswer(serial, landed) => if landed then ConfirmRequest(w, serial, false) else Unheard(w, serial)
    case Return(serial, clearMark) => ReturnToQueue(w, serial, clearMark)
    case HandOver(serial, reported) => NotifyOwner(w, serial, reported)
    case Abandon(serial) => w.Drop(serial)
    case Retry(id) => AskAgain(w, id)
    case Vanish(id) => w.(entries := w.entries - {id})
  }

  function Run(w: World, steps: seq<Step>): World
    decreases |steps|
  {
    if steps == [] then w else Run(Next(w, steps[0]), steps[1..])
  }

  // ------------------------------------------------------------- what a run keeps

  /** What one entry's state says about its claims. */
  ghost predicate EntryOk(w: World, id: Text) {
    var p := w.PastOf(id);
    && p.nominated <= p.latest <= w.serial && (p.latest > 0 ==> p.stamp <= w.now)
    && (id in w.entries ==>
        var m := w.entries[id];
        && id in w.past
        && (m.status == Pending ==> m.claimedAt.None?)
        && (m.status == InProgress ==> p.latest > 0)
        && (m.claimedAt.Some? ==> m.claimedAt == Some(p.stamp)))
  }

  /** What one claim in hand still stands for. */
  ghost predicate HeldOk(w: World, k: nat) {
    k in w.held ==>
      var h, p := w.held[k], w.PastOf(w.held[k].id);
      && 0 < k <= p.latest && h.id in w.past && h.stamp <= p.stamp
      && (k == p.latest ==> h.stamp == p.stamp)
  }

  ghost predicate Orderly(w: World) {
    && (forall id :: EntryOk(w, id))
    && (forall k :: HeldOk(w, k))
  }

  lemma NextOrderly(w: World, step: Step)
    requires Orderly(w)
    ensures Orderly(Next(w, step))
  {
    forall id ensures EntryOk(Next(w, step), id) { EntryStaysOk(w, step, id); }
    forall k: nat ensures HeldOk(Next(w, step), k) { HeldStaysOk(w, step, k); }
  }

  lemma EntryStaysOk(w: World, step: Step, id: Text)
    requires Orderly(w)
    ensures EntryOk(Next(w, step), id)
  {
    assert EntryOk(w, id);
    match step
    case ClaimEntry(claimed) => assert EntryOk(w, claimed);
    case HandOver(serial, _) => assert HeldOk(w, serial);
    case _ =>
  }

  lemma HeldStaysOk(w: World, step: Step, k: nat)
    requires Orderly(w)
    ensures HeldOk(Next(w, step), k)
  {
    assert HeldOk(w, k);
    match step
    case ClaimEntry(claimed) => assert EntryOk(w, claimed);
    case _ =>
  }

  lemma {:induction false} RunOrderly(w: World, steps: seq<Step>)
    requires Orderly(w)
    ensures Orderly(Run(w, steps))
    decreases |steps|
  {
    if steps != [] {
      NextOrderly(w, steps[0]);
      RunOrderly(Next(w, steps[0]), steps[1..]);
    }
  }

  lemma {:induction false} RunJoin(w: World, a: seq<Step>, b: seq<Step>)
    ensures Run(w, a + b) == Run(Run(w, a), b)
    decreases |a|
  {
    if a == [] {
      assert a + b == b;
    } else {
      assert (a + b)[1..] == a[1..] + b;
      RunJoin(Next(w, a[0]), a[1..], b);
    }
  }

  lemma TwoStepsRun(w: World, s: seq<Step>)
    requires |s| == 2
    ensures Run(w, s) == Next(Next(w, s[0]), s[1])
  {
    assert s[1..][0] == s[1] && s[1..][1..] == [];
    assert Run(Next(w, s[0]), s[1..]) == Next(Next(w, s[0]), s[1]);
  }
}
