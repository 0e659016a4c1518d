/** The SAML assertion replay cache with its purge loop: internal/auth/saml_replay_cache.go. */
module ReplayCache {

  /** Assertion id -> expiry. */
  type Seen = map<string, int>

  predicate Accepts(seen: Seen, now: int, id: string) {
    id != "" && !(id in seen && now < seen[id])
  }

  function Stored(seen: Seen, now: int, id: string, expiresAt: int): Seen {
    if Accepts(seen, now, id) then seen[id := expiresAt] else seen
  }

  function Purged(seen: Seen, now: int): Seen {
    map id | id in seen && now <= seen[id] :: seen[id]
  }

  class SAMLReplayCache {
    var seen: Seen

    constructor ()
      ensures seen == map[]
    {
      seen := map[];
    }

    /** now is the clock read under the cache's mutex. */
    method CheckAndStore(now: int, id: string, expiresAt: int) returns (accepted: bool)
      modifies this
      ensures accepted == Accepts(old(seen), now, id)
      ensures seen == Stored(old(seen), now, id, expiresAt)
    {
      if id == "" {
        return false;
      }
      if id in seen && now < seen[id] {
        return false;
      }
      seen := seen[id := expiresAt];
      return true;
    }

    /** One turn of purgeLoop. */
    method Purge(now: int)
      modifies this
      ensures seen == Purged(old(seen), now)
    {
      var todo := seen.Keys;
      while todo != {}
        invariant todo <= old(seen).Keys
        invariant seen == map id | id in old(seen) && (id in todo || now <= old(seen)[id]) :: old(seen)[id]
        decreases |todo|
      {
        var id :| id in todo;
        if now > seen[id] {
          seen := seen - {id};
        }
        todo := todo - {id};
      }
    }
  }

  // ---------- runs ----------

  datatype Event = Check(now: int, id: string, expiresAt: int) | Purge(now: int)

  function Step(seen: Seen, e: Event): Seen {
    match e
    case Check(now, id, expiresAt) => Stored(seen, now, id, expiresAt)
    case Purge(now) => Purged(seen, now)
  }

  ghost function After(events: seq<Event>): Seen {
    if events == [] then map[] else Step(After(events[..|events| - 1]), events[|events| - 1])
  }

  /** The cache after the same events without its purges. */
  ghost function AfterUnpurged(events: seq<Event>): Seen {
    if events == [] then map[]
    else
      var before := AfterUnpurged(events[..|events| - 1]);
      if events[|events| - 1].Purge? then before else Step(before, events[|events| - 1])
  }

  ghost predicate Monotone(events: seq<Event>) {
    forall i, j :: 0 <= i <= j < |events| ==> events[i].now <= events[j].now
  }

  /** A purge drops exactly the ids whose expiry has passed. */
  lemma {:induction false} PurgeIsExact(events: seq<Event>, now: int, id: string)
    ensures var before, after := After(events), After(events + [Purge(now)]);
      && (id in after <==> id in before && before[id] >= now)
      && (id in after ==> after[id] == before[id])
  {
    assert (events + [Purge(now)])[..|events|] == events;
  }

  /** Check i of the run is accepted. */
  ghost predicate AcceptedAt(events: seq<Event>, i: nat) {
    i < |events| && events[i].Check? && Accepts(After(events[..i]), events[i].now, events[i].id)
  }

  /** What was purged had expired; everything else is there. */
  lemma {:induction false} PurgedAgrees(events: seq<Event>)
    requires Monotone(events)
    ensures forall id :: id in After(events) ==>
      id in AfterUnpurged(events) && After(events)[id] == AfterUnpurged(events)[id]
    ensures forall id :: id in AfterUnpurged(events) && id !in After(events) ==>
      events != [] && AfterUnpurged(events)[id] < events[|events| - 1].now
  {
    if events != [] {
      PurgedAgrees(events[..|events| - 1]);
    }
  }

  /** Refinement: purges, wherever they fall, change no answer. */
  lemma PurgesAreInvisible(events: seq<Event>, i: nat)
    requires Monotone(events) && i < |events| && events[i].Check?
    ensures AcceptedAt(events, i) <==> Accepts(AfterUnpurged(events[..i]), events[i].now, events[i].id)
  {
    PurgedAgrees(events[..i]);
  }

  lemma {:induction false} StillSeen(events: seq<Event>, j: nat, i: nat)
    requires Monotone(events) && AcceptedAt(events, j) && j < i <= |events|
    requires i < |events| ==> events[i].now < events[j].expiresAt
    requires i == |events| ==> events[i - 1].now < events[j].expiresAt
    ensures events[j].id in After(events[..i]) && After(events[..i])[events[j].id] == events[j].expiresAt
  {
    assert events[..i][..i - 1] == events[..i - 1];
    if i > j + 1 {
      assert events[i - 1].now < events[j].expiresAt by {
        assert i < |events| ==> events[i - 1].now <= events[i].now;
      }
      StillSeen(events, j, i - 1);
    }
  }

  /** Whatever the cache holds was accepted. */
  lemma {:induction false} SeenWasAccepted(events: seq<Event>, i: nat, id: string) returns (j: nat)
    requires i <= |events| && id in After(events[..i])
    ensures j < i && AcceptedAt(events, j) && events[j].id == id && events[j].expiresAt == After(events[..i])[id]
  {
    assert i > 0;
    assert events[..i][..i - 1] == events[..i - 1];
    if AcceptedAt(events, i - 1) && events[i - 1].id == id {
      j := i - 1;
    } else {
      j := SeenWasAccepted(events, i - 1, id);
    }
  }

  /**
   * Over every run: an id is accepted exactly when it is not empty and no earlier acceptance of it
   * has an expiry still ahead. In particular nothing is accepted twice before the first expiry.
   */
  lemma AcceptedOnce(events: seq<Event>, i: nat)
    requires Monotone(events) && i < |events| && events[i].Check?
    ensures AcceptedAt(events, i) <==>
      events[i].id != "" &&
      forall j :: 0 <= j < i && AcceptedAt(events, j) && events[j].id == events[i].id ==>
        events[j].expiresAt <= events[i].now
  {
    var id, now := events[i].id, events[i].now;
    forall j | 0 <= j < i && AcceptedAt(events, j) && events[j].id == id && now < events[j].expiresAt
      ensures !AcceptedAt(events, i)
    {
      StillSeen(events, j, i);
    }
    if id != "" && !AcceptedAt(events, i) {
      var j := SeenWasAccepted(events, i, id);
    }
  }
}
