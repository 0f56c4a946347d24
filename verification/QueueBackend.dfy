/**
 * The queue half of the in-process backend, its tables changed in place; each method
 * does to the whole queue what `RequestQueue` says.
 */
module QueueBackend {
  import opened Numbers
  import opened Buckets
  import opened MemberOrder
  import opened QueueEntry
  import opened RequestQueue

  /** In order, with no id twice and none missing. */
  ghost predicate InOrder(ids: seq<Text>, scores: map<Text, int>) {
    && (forall i :: 0 <= i < |ids| ==> ids[i] in scores)
    && (forall id :: id in scores ==> id in ids)
    && (forall i, j :: 0 <= i < j < |ids| ==> AtOrBefore(scores, ids[i], ids[j]))
  }

  /** The same of the part of a set that has been placed so far. */
  ghost predicate Placed(ids: seq<Text>, scores: map<Text, int>, rest: set<Text>) {
    && (forall i :: 0 <= i < |ids| ==> ids[i] in scores)
    && (forall id :: id in scores && id !in rest ==> id in ids)
    && (forall i, j :: 0 <= i < j < |ids| ==> AtOrBefore(scores, ids[i], ids[j]))
  }

  function Insert(ids: seq<Text>, at: nat, id: Text): seq<Text>
    requires at <= |ids|
  {
    ids[..at] + [id] + ids[at..]
  }

  lemma InsertedMembers(ids: seq<Text>, at: nat, id: Text, other: Text)
    requires at <= |ids|
    ensures other in Insert(ids, at, id) <==> other in ids || other == id
  {
    assert ids == ids[..at] + ids[at..];
  }

  lemma InsertedOrder(ids: seq<Text>, scores: map<Text, int>, id: Text, at: nat, i: nat, j: nat)
    requires at <= |ids| && id in scores && forall k :: 0 <= k < |ids| ==> ids[k] in scores
    requires forall i, j :: 0 <= i < j < |ids| ==> AtOrBefore(scores, ids[i], ids[j])
    requires forall i :: 0 <= i < at ==> AtOrBefore(scores, ids[i], id)
    requires at < |ids| ==> !AtOrBefore(scores, ids[at], id)
    requires i < j <= |ids|
    ensures var grown := Insert(ids, at, id);
      grown[i] in scores && grown[j] in scores && AtOrBefore(scores, grown[i], grown[j])
  {
    if i == at {
      OrderIsTotal(scores, id, ids[at], ids[j - 1]);
    }
  }

  lemma Inserted(ids: seq<Text>, scores: map<Text, int>, rest: set<Text>, id: Text, at: nat)
    requires Placed(ids, scores, rest) && id in scores && at <= |ids|
    requires forall i :: 0 <= i < at ==> AtOrBefore(scores, ids[i], id)
    requires at < |ids| ==> !AtOrBefore(scores, ids[at], id)
    ensures Placed(Insert(ids, at, id), scores, rest - {id})
  {
    forall other ensures other in Insert(ids, at, id) <==> other in ids || other == id {
      InsertedMembers(ids, at, id, other);
    }
    forall i, j | 0 <= i < j <= |ids|
      ensures var grown := Insert(ids, at, id);
        grown[i] in scores && grown[j] in scores && AtOrBefore(scores, grown[i], grown[j])
    {
      InsertedOrder(ids, scores, id, at, i, j);
    }
  }

  class RequestQueueStore {
    var scores: Scores
    var entries: map<Text, Entry<Meta>>
    var tombstones: map<Text, int>
    /** The grants a probe has been sought for; this key, too, expires. */
    var frozenGrants: Option<Entry<set<string>>>

    constructor ()
      ensures Contents() == NO_QUEUE && frozenGrants.None?
    {
      scores, entries, tombstones, frozenGrants := Scores(map[], None), map[], map[], None;
    }

    function FrozenGrants(now: int): set<string>
      reads this
    {
      if frozenGrants.Some? && now < frozenGrants.value.expiresAt then frozenGrants.value.value else {}
    }

    function Contents(): Queue
      reads this
    {
      Queue(scores, entries, tombstones)
    }

    /** The live metadata of an id. */
    function Metadata(id: Text, now: int): (m: Option<Meta>)
      reads this
      ensures m == Contents().Find(id, now)
    {
      if id in entries && now < entries[id].expiresAt then Some(entries[id].value) else None
    }

    /** Members of the sorted set, placed one by one by score and then by bytes. */
    method Sorted(now: int) returns (ids: seq<Text>)
      ensures InOrder(ids, Contents().scores.At(now))
    {
      var members := scores.At(now);
      var rest := members.Keys;
      ids := [];
      while rest != {}
        invariant rest <= members.Keys && Placed(ids, members, rest)
        decreases |rest|
      {
        var id :| id in rest;
        var at := 0;
        while at < |ids| && AtOrBefore(members, ids[at], id)
          invariant 0 <= at <= |ids|
          invariant forall i :: 0 <= i < at ==> AtOrBefore(members, ids[i], id)
        {
          at := at + 1;
        }
        Inserted(ids, members, rest, id, at);
        ids := Insert(ids, at, id);
        rest := rest - {id};
      }
    }

    method AddRequest(id: Text, m: Meta, ttl: int, now: int) returns (result: AddResult)
      modifies this`scores, this`entries
      ensures (Contents(), result) == Add(old(Contents()), id, m, ttl, now)
    {
      var score := CalculateQueueScore(m.priority, m.retries, m.timestamp);
      if score.None? {
        return Threw;
      }
      if id in tombstones && now < tombstones[id] {
        return NotAdded;
      }
      if Metadata(id, now).Some? {
        return NotAdded;
      }
      var members := scores.At(now);
      scores := Scores(members[id := score.value], Some(now + ttl * 1000));
      entries := entries[id := Entry(m.(claimedAt := None), now + ttl * 1000)];
      return Added;
    }

    /** Hands out the first entry, in order, that may be handed out, and claims it. */
    method GetNextRequest(skipGrants: set<string>, skipIds: set<Text>, now: int) returns (next: Option<Text>)
      modifies this`entries
      ensures next.None? ==>
        Contents() == old(Contents()) && forall id :: !Eligible(old(Contents()), id, skipGrants, skipIds, now)
      ensures next.Some? ==>
        First(old(Contents()), next.value, skipGrants, skipIds, now) && Contents() == ClaimEntry(old(Contents()), next.value, now)
    {
      var ids := Sorted(now);
      var i := 0;
      while i < |ids|
        invariant 0 <= i <= |ids| && Contents() == old(Contents())
        invariant forall j :: 0 <= j < i ==> !Eligible(Contents(), ids[j], skipGrants, skipIds, now)
      {
        var id := ids[i];
        i := i + 1;
        if id in skipIds {
          continue;
        }
        var m := Metadata(id, now);
        if m.None? || !Claimable(m.value, now) {
          continue;
        }
        if m.value.grantId != "" && m.value.grantId in skipGrants {
          continue;
        }
        forall other | Eligible(Contents(), other, skipGrants, skipIds, now) ensures AtOrBefore(scores.At(now), id, other) {
          var k :| 0 <= k < |ids| && ids[k] == other;
          OrderIsTotal(scores.At(now), id, id, other);
        }
        var claimed := m.value;
        // An entry reclaimed after a lapse starts without a mark.
        if claimed.status != Pending {
          claimed := claimed.(isThawRequest := false);
        }
        claimed := claimed.(status := InProgress, claimedAt := Some(now));
        entries := entries[id := entries[id].(value := claimed)];
        return Some(id);
      }
      return None;
    }

    method ConfirmRequest(id: Text, claimedAt: int, now: int) returns (confirmed: bool)
      modifies this`entries
      ensures (Contents(), confirmed) == Confirm(old(Contents()), id, claimedAt, now)
    {
      var m := Metadata(id, now);
      if m.None? || m.value.status != InProgress {
        return false;
      }
      if m.value.claimedAt != Some(claimedAt) {
        return false;
      }
      if ClaimLapsed(m.value.claimedAt, now) {
        return false;
      }
      entries := entries[id := entries[id].(value := m.value.(claimedAt := None))];
      return true;
    }

    method UpdateRequest(id: Text, updates: Updates, now: int)
      modifies this`scores, this`entries
      ensures Contents() == Update(old(Contents()), id, updates, now)
    {
      var hash := Metadata(id, now);
      if hash.None? {
        return;
      }
      var m := hash.value;
      if updates.status.Some? {
        m := m.(status := updates.status.value, claimedAt := None);
      }
      if updates.retries.Some? {
        m := m.(retries := updates.retries.value);
      }
      if updates.priority.Some? {
        m := m.(priority := updates.priority.value);
      }
      if updates.isThawRequest.Some? {
        m := m.(isThawRequest := updates.isThawRequest.value);
      }
      entries := entries[id := entries[id].(value := m)];
      if updates.retries.Some? || updates.priority.Some? {
        scores := scores.Put(id, Rescore(m.priority, m.retries, m.timestamp), now);
      }
    }

    method RemoveRequest(id: Text, tombstoneTtl: int, now: int) returns (wasThawRequest: bool)
      modifies this`scores, this`entries, this`tombstones
      ensures Contents() == Remove(old(Contents()), id, tombstoneTtl, now)
      ensures wasThawRequest <==> old(Contents()).Find(id, now).Some? && old(Contents()).Find(id, now).value.isThawRequest
    {
      var m := Metadata(id, now);
      wasThawRequest := m.Some? && m.value.isThawRequest;
      scores := scores.Without({id}, now);
      entries := entries - {id};
      tombstones := tombstones[id := now + tombstoneTtl * 1000];
    }

    /** Tracks the grant, and marks the entry as its scope's probe if no other is under way. */
    method TryStartThawRequest(id: Text, grantId: string, anyGrant: bool, now: int) returns (started: bool)
      modifies this`entries, this`frozenGrants
      ensures (Contents(), started) == StartThaw(old(Contents()), id, grantId, anyGrant, now)
      ensures if grantId == "" then frozenGrants == old(frozenGrants)
        else frozenGrants == Some(Entry(old(FrozenGrants(now)) + {grantId}, now + DAY_SECONDS * 1000))
    {
      if grantId != "" {
        frozenGrants := Some(Entry(FrozenGrants(now) + {grantId}, now + DAY_SECONDS * 1000));
      }
      var ids := Sorted(now);
      var i := 0;
      while i < |ids|
        invariant 0 <= i <= |ids| && Contents() == old(Contents())
        invariant forall j :: 0 <= j < i ==> !AnotherProbe(Contents(), ids[j], id, grantId, anyGrant, now)
      {
        var other := ids[i];
        i := i + 1;
        if other == id {
          continue;
        }
        var m := Metadata(other, now);
        if m.Some? && CompetingProbe(m.value, grantId, anyGrant, now) {
          assert AnotherProbe(Contents(), other, id, grantId, anyGrant, now);
          return false;
        }
      }
      var m := Metadata(id, now);
      if m.None? {
        return false;
      }
      entries := entries[id := entries[id].(value := m.value.(isThawRequest := true))];
      return true;
    }

    /** Drops what dead owners left, unless the list of the living misses this instance. */
    method CleanupOrphanedRequests(alive: set<string>, currentInstanceId: string, now: int) returns (cleanedUp: nat)
      modifies this`scores, this`entries
      ensures currentInstanceId !in alive ==> cleanedUp == 0 && Contents() == old(Contents())
      ensures currentInstanceId in alive ==>
        cleanedUp == |Orphans(old(Contents()), alive, now)| && Contents() == Sweep(old(Contents()), alive, now)
    {
      cleanedUp := 0;
      if currentInstanceId !in alive {
        return;
      }
      ghost var q := Contents();
      var members := scores.At(now);
      var rest := members.Keys;
      var gone: set<Text> := {};
      while rest != {}
        invariant rest <= members.Keys && gone !! rest && Contents() == q
        invariant forall id :: id in gone <==> id in members && id !in rest && Orphaned(q, id, alive, now)
        invariant cleanedUp == |gone|
        decreases |rest|
      {
        var id :| id in rest;
        rest := rest - {id};
        var m := Metadata(id, now);
        if m.None? || m.value.ownerId == "" || m.value.ownerId !in alive {
          gone := gone + {id};
          cleanedUp := cleanedUp + 1;
        }
      }
      assert gone == Orphans(q, alive, now);
      scores := scores.Without(gone, now);
      entries := entries - gone;
    }
  }
}
