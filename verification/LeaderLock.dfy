/** The cross-pod lock around a scheduled job as a protocol. */
module LeaderLock {

  // internal/scheduler/pg_leader_lock.go
  // Acquire, run and release are separate steps of any number of loops, advisoryKey is any function, pods may crash,
  // and the database may lose any session at any time.

  type Pod = nat

  /** A scheduler's tick loop; a process runs several on one connection pool (cmd/server/main.go:1347-1368). */
  datatype Loop = Loop(pod: Pod, number: nat)

  datatype Claim = Claim(job: string, window: string)

  /** A pooled connection of a pod; a lock belongs to the connection that took it. */
  datatype Session = Session(pod: Pod, number: nat)

  /** Where a loop stands; it runs its jobs one at a time, each on one connection of its pod that it has pinned. */
  datatype Stage =
    | Acquiring(claim: Claim)
    | Running(claim: Claim, session: Session)
    | Releasing(claim: Claim, session: Session)

  /** Advisory locks are reentrant: a session that takes one it holds must release it once more. */
  datatype Hold = Hold(session: Session, depth: nat)

  /** locks is the database's table of advisory locks. */
  datatype Cluster = Cluster(locks: map<int, Hold>, stages: map<Loop, Stage>, started: seq<(Loop, Claim)>)

  datatype Action =
    | Attempt(loop: Loop, claim: Claim)
    /** pg_try_advisory_lock on the connection the pod's pool hands out, which is one that nobody has pinned */
    | TryLock(loop: Loop, number: nat)
    | AcquireFails(loop: Loop)
    | Return(loop: Loop)
    | Unlock(loop: Loop)
    /** pg_advisory_unlock fails, an error that is dropped: the pooled session keeps the lock */
    | UnlockFails(loop: Loop)
    /** the pod dies with its loops: the database ends its sessions and frees their locks */
    | Crash(pod: Pod)
    /** the database ends one session and frees its locks; a job running on it is not told */
    | SessionLost(session: Session)

  function AdvisoryKey(hash: string -> int, c: Claim): int {
    hash("scheduler:" + c.job + ":" + c.window)
  }

  ghost predicate Injective(hash: string -> int) {
    forall s, t :: hash(s) == hash(t) ==> s == t
  }

  /**
   * As far as the hash tells texts apart, keys tell claims apart whose windows have no colon, as those of the
   * scheduler, which are dates and hours.
   */
  lemma KeysAreApart(hash: string -> int, c: Claim, d: Claim)
    requires Injective(hash) && ':' !in c.window && ':' !in d.window
    ensures AdvisoryKey(hash, c) == AdvisoryKey(hash, d) <==> c == d
  {
    if AdvisoryKey(hash, c) == AdvisoryKey(hash, d) {
      SplitAtLastColon("scheduler:" + c.job, c.window, "scheduler:" + d.job, d.window);
      assert ("scheduler:" + c.job)[10..] == c.job && ("scheduler:" + d.job)[10..] == d.job;
    }
  }

  lemma {:induction false} SplitAtLastColon(a: string, v: string, b: string, w: string)
    requires a + ":" + v == b + ":" + w && ':' !in v && ':' !in w
    ensures a == b && v == w
  {
    var s, t := a + ":" + v, b + ":" + w;
    assert s[|s| - 1] == if v == "" then ':' else v[|v| - 1];
    assert t[|t| - 1] == if w == "" then ':' else w[|w| - 1];
    if v == "" || w == "" {
      assert s[..|s| - 1] == a && t[..|t| - 1] == b;
    } else {
      assert s[..|s| - 1] == a + ":" + v[..|v| - 1] && t[..|t| - 1] == b + ":" + w[..|w| - 1];
      SplitAtLastColon(a, v[..|v| - 1], b, w[..|w| - 1]);
    }
  }

  predicate IsAcquiring(s: Cluster, loop: Loop) {
    loop in s.stages && s.stages[loop].Acquiring?
  }

  predicate IsRunning(s: Cluster, loop: Loop) {
    loop in s.stages && s.stages[loop].Running?
  }

  predicate IsReleasing(s: Cluster, loop: Loop) {
    loop in s.stages && s.stages[loop].Releasing?
  }

  /** The loop has pinned the session. */
  predicate Pins(s: Cluster, loop: Loop, session: Session) {
    (IsRunning(s, loop) || IsReleasing(s, loop)) && s.stages[loop].session == session
  }

  ghost predicate IsFree(s: Cluster, session: Session) {
    forall l :: !Pins(s, l, session)
  }

  predicate Grants(s: Cluster, key: int, session: Session) {
    key !in s.locks || s.locks[key].session == session
  }

  function Deeper(s: Cluster, key: int, session: Session): Hold {
    Hold(session, if key in s.locks then s.locks[key].depth + 1 else 1)
  }

  ghost function TryLockStep(hash: string -> int, s: Cluster, loop: Loop, number: nat): Cluster {
    if !IsAcquiring(s, loop) || !IsFree(s, Session(loop.pod, number)) then s
    else
      var claim, session := s.stages[loop].claim, Session(loop.pod, number);
      var key := AdvisoryKey(hash, claim);
      if Grants(s, key, session)
      then Cluster(s.locks[key := Deeper(s, key, session)], s.stages[loop := Running(claim, session)],
                   s.started + [(loop, claim)])
      else s.(stages := s.stages - {loop})
  }

  /** pg_advisory_unlock: one level less for the holder, nothing for anybody else. */
  function Unlocked(locks: map<int, Hold>, key: int, session: Session): map<int, Hold> {
    if key !in locks || locks[key].session != session then locks
    else if locks[key].depth <= 1 then locks - {key}
    else locks[key := Hold(session, locks[key].depth - 1)]
  }

  ghost function Step(hash: string -> int, s: Cluster, a: Action): Cluster {
    match a
    case Attempt(loop, claim) =>
      if loop in s.stages then s else s.(stages := s.stages[loop := Acquiring(claim)])
    case TryLock(loop, number) => TryLockStep(hash, s, loop, number)
    case AcquireFails(loop) => if IsAcquiring(s, loop) then s.(stages := s.stages - {loop}) else s
    case Return(loop) =>
      if IsRunning(s, loop)
      then s.(stages := s.stages[loop := Releasing(s.stages[loop].claim, s.stages[loop].session)]) else s
    case Unlock(loop) =>
      if IsReleasing(s, loop)
      then s.(locks := Unlocked(s.locks, AdvisoryKey(hash, s.stages[loop].claim), s.stages[loop].session),
              stages := s.stages - {loop})
      else s
    case UnlockFails(loop) => if IsReleasing(s, loop) then s.(stages := s.stages - {loop}) else s
    case Crash(pod) =>
      s.(locks := map k | k in s.locks && s.locks[k].session.pod != pod :: s.locks[k],
         stages := map l | l in s.stages && l.pod != pod :: s.stages[l])
    case SessionLost(session) => s.(locks := map k | k in s.locks && s.locks[k].session != session :: s.locks[k])
  }

  ghost function Run(hash: string -> int, actions: seq<Action>): Cluster {
    if actions == [] then Cluster(map[], map[], [])
    else Step(hash, Run(hash, actions[..|actions| - 1]), actions[|actions| - 1])
  }

  lemma RunAppend(hash: string -> int, actions: seq<Action>, a: Action)
    ensures Run(hash, actions + [a]) == Step(hash, Run(hash, actions), a)
  {
    assert (actions + [a])[..|actions|] == actions;
  }

  // ---------- mutual exclusion ----------

  /** A pinned session is of the loop's pod, and no two loops have pinned one. */
  ghost predicate PinsApart(s: Cluster) {
    forall l, m, x :: Pins(s, l, x) ==> x.pod == l.pod && (Pins(s, m, x) ==> l == m)
  }

  lemma StepPinsApart(hash: string -> int, s: Cluster, a: Action)
    requires PinsApart(s)
    ensures PinsApart(Step(hash, s, a))
  {
    var s' := Step(hash, s, a);
    forall l, x | Pins(s', l, x)
      ensures Pins(s, l, x) || (a.TryLock? && a.loop == l && x == Session(l.pod, a.number) && IsFree(s, x))
    {
    }
  }

  lemma {:induction false} RunPinsApart(hash: string -> int, actions: seq<Action>)
    ensures PinsApart(Run(hash, actions))
  {
    if actions != [] {
      RunPinsApart(hash, actions[..|actions| - 1]);
      StepPinsApart(hash, Run(hash, actions[..|actions| - 1]), actions[|actions| - 1]);
    }
  }

  /** The loop runs a claim with this key. */
  predicate RunsUnder(hash: string -> int, s: Cluster, loop: Loop, key: int) {
    IsRunning(s, loop) && AdvisoryKey(hash, s.stages[loop].claim) == key
  }

  /** The loop's pinned session holds the key of its claim. */
  ghost predicate Held(hash: string -> int, s: Cluster, loop: Loop)
    requires IsRunning(s, loop)
  {
    var key := AdvisoryKey(hash, s.stages[loop].claim);
    key in s.locks && s.locks[key].session == s.stages[loop].session
  }

  /** The step starts a job of this loop. */
  ghost predicate StartsLoop(hash: string -> int, s: Cluster, a: Action, loop: Loop) {
    && a.TryLock? && a.loop == loop && IsAcquiring(s, loop) && IsFree(s, Session(loop.pod, a.number))
    && Grants(s, AdvisoryKey(hash, s.stages[loop].claim), Session(loop.pod, a.number))
  }

  /** The session the loop has pinned was lost since its job started. */
  ghost predicate LostSinceStart(hash: string -> int, actions: seq<Action>, loop: Loop) {
    if actions == [] then false
    else
      var s, a := Run(hash, actions[..|actions| - 1]), actions[|actions| - 1];
      if StartsLoop(hash, s, a, loop) then false
      else
        || LostSinceStart(hash, actions[..|actions| - 1], loop)
        || (a.SessionLost? && Pins(s, loop, a.session))
  }

  lemma StartHolds(hash: string -> int, s: Cluster, a: Action, loop: Loop)
    requires StartsLoop(hash, s, a, loop)
    ensures IsRunning(Step(hash, s, a), loop) && Held(hash, Step(hash, s, a), loop)
  {
  }

  /** Nobody but the database takes a pinned session's lock. */
  lemma OthersLeaveLock(hash: string -> int, s: Cluster, a: Action, loop: Loop)
    requires PinsApart(s) && IsRunning(s, loop) && IsRunning(Step(hash, s, a), loop)
    ensures Held(hash, Step(hash, s, a), loop) <==> Held(hash, s, loop) && !(a.SessionLost? && Pins(s, loop, a.session))
  {
    var x := s.stages[loop].session;
    assert Pins(s, loop, x);
    match a
    case TryLock(other, number) =>
      assert IsFree(s, Session(other.pod, number)) ==> x != Session(other.pod, number);
    case Unlock(other) =>
      if IsReleasing(s, other) {
        assert Pins(s, other, s.stages[other].session);
      }
    case _ =>
  }

  lemma RunsOnOrStarts(hash: string -> int, s: Cluster, a: Action, loop: Loop)
    requires IsRunning(Step(hash, s, a), loop)
    ensures StartsLoop(hash, s, a, loop) <==> !IsRunning(s, loop)
  {
  }

  /** A running loop's session holds its key exactly as long as it has not been lost. */
  lemma {:induction false} HeldUnlessLost(hash: string -> int, actions: seq<Action>, loop: Loop)
    requires IsRunning(Run(hash, actions), loop)
    ensures Held(hash, Run(hash, actions), loop) <==> !LostSinceStart(hash, actions, loop)
  {
    var before, a := actions[..|actions| - 1], actions[|actions| - 1];
    var s := Run(hash, before);
    RunPinsApart(hash, before);
    RunsOnOrStarts(hash, s, a, loop);
    if IsRunning(s, loop) {
      HeldUnlessLost(hash, before, loop);
      OthersLeaveLock(hash, s, a, loop);
    } else {
      StartHolds(hash, s, a, loop);
    }
  }

  /**
   * Mutual exclusion, for any loops, interleaving, crashes, failed unlocks and hash: two loops are inside jobs whose
   * claims have the same key only if one of them lost its session since its job started.
   */
  lemma MutualExclusion(hash: string -> int, actions: seq<Action>, p: Loop, q: Loop, key: int)
    requires RunsUnder(hash, Run(hash, actions), p, key) && RunsUnder(hash, Run(hash, actions), q, key)
    requires !LostSinceStart(hash, actions, p) && !LostSinceStart(hash, actions, q)
    ensures p == q
  {
    HeldUnlessLost(hash, actions, p);
    HeldUnlessLost(hash, actions, q);
    RunPinsApart(hash, actions);
    var s := Run(hash, actions);
    assert Pins(s, p, s.stages[p].session) && Pins(s, q, s.stages[q].session);
  }

  /** Two loops are inside jobs with one key. */
  ghost predicate Overlap(hash: string -> int, s: Cluster) {
    exists p, q, key :: p != q && RunsUnder(hash, s, p, key) && RunsUnder(hash, s, q, key)
  }

  /** Step i starts a job beside a loop that still runs under the same key although its session was lost. */
  ghost predicate EntersBeside(hash: string -> int, actions: seq<Action>, i: nat)
    requires i < |actions|
  {
    var s, a := Run(hash, actions[..i]), actions[i];
    exists key, p :: StartsJob(hash, s, a, key) && RunsUnder(hash, s, p, key) && LostSinceStart(hash, actions[..i], p)
  }

  lemma OnlyStartsOverlap(hash: string -> int, s: Cluster, a: Action, p: Loop, q: Loop, key: int)
    requires p != q && RunsUnder(hash, Step(hash, s, a), p, key) && RunsUnder(hash, Step(hash, s, a), q, key)
    requires !(RunsUnder(hash, s, p, key) && RunsUnder(hash, s, q, key)) && PinsApart(s)
    ensures StartsJob(hash, s, a, key)
    ensures (a.loop == p && RunsUnder(hash, s, q, key) && !Held(hash, s, q))
         || (a.loop == q && RunsUnder(hash, s, p, key) && !Held(hash, s, p))
  {
    var other := if a.TryLock? && a.loop == p then q else p;
    if IsRunning(s, other) {
      assert Pins(s, other, s.stages[other].session);
    }
  }

  lemma EnteringOverlaps(hash: string -> int, actions: seq<Action>, i: nat)
    requires i < |actions| && EntersBeside(hash, actions, i)
    ensures Overlap(hash, Run(hash, actions[..i + 1]))
  {
    var s, a := Run(hash, actions[..i]), actions[i];
    var key, p :| StartsJob(hash, s, a, key) && RunsUnder(hash, s, p, key) && LostSinceStart(hash, actions[..i], p);
    assert actions[..i + 1][..i] == actions[..i];
    var s' := Step(hash, s, a);
    assert RunsUnder(hash, s', p, key) && RunsUnder(hash, s', a.loop, key) && p != a.loop;
  }

  /**
   * Exclusion fails in a run exactly when a try for a key is granted while a loop that has lost its session since its
   * job started is still inside a job with that key.
   */
  lemma {:induction false} OverlapIff(hash: string -> int, actions: seq<Action>)
    ensures (exists i :: 0 <= i <= |actions| && Overlap(hash, Run(hash, actions[..i])))
       <==> exists i :: 0 <= i < |actions| && EntersBeside(hash, actions, i)
  {
    if i :| 0 <= i < |actions| && EntersBeside(hash, actions, i) {
      EnteringOverlaps(hash, actions, i);
    }
    if i :| 0 <= i <= |actions| && Overlap(hash, Run(hash, actions[..i])) {
      var j := FirstOverlap(hash, actions, i);
    }
  }

  lemma {:induction false} FirstOverlap(hash: string -> int, actions: seq<Action>, i: nat) returns (j: nat)
    requires i <= |actions| && Overlap(hash, Run(hash, actions[..i]))
    ensures j < |actions| && EntersBeside(hash, actions, j)
    decreases i
  {
    var p, q, key :|
      p != q && RunsUnder(hash, Run(hash, actions[..i]), p, key) && RunsUnder(hash, Run(hash, actions[..i]), q, key);
    var s, a := Run(hash, actions[..i - 1]), actions[i - 1];
    assert actions[..i][..i - 1] == actions[..i - 1];
    if RunsUnder(hash, s, p, key) && RunsUnder(hash, s, q, key) {
      j := FirstOverlap(hash, actions, i - 1);
    } else {
      RunPinsApart(hash, actions[..i - 1]);
      OnlyStartsOverlap(hash, s, a, p, q, key);
      HeldUnlessLost(hash, actions[..i - 1], if a.loop == p then q else p);
      j := i - 1;
    }
  }

  /** A lost session lets a second loop into the same job and window while the first is still running it. */
  lemma LostSessionLetsAnotherIn(hash: string -> int, claim: Claim, p: Loop, q: Loop) returns (actions: seq<Action>)
    requires p.pod != q.pod
    ensures var s := Run(hash, actions);
      && IsRunning(s, p) && s.stages[p].claim == claim
      && IsRunning(s, q) && s.stages[q].claim == claim
  {
    var one := [] + [Attempt(p, claim)];
    var two := one + [TryLock(p, 0)];
    var three := two + [SessionLost(Session(p.pod, 0))];
    var four := three + [Attempt(q, claim)];
    RunAppend(hash, [], Attempt(p, claim));
    RunAppend(hash, one, TryLock(p, 0));
    RunAppend(hash, two, SessionLost(Session(p.pod, 0)));
    RunAppend(hash, three, Attempt(q, claim));
    RunAppend(hash, four, TryLock(q, 0));
    actions := four + [TryLock(q, 0)];
  }

  // ---------- why a loop skips ----------

  /** The loop runs or releases the claim for which its session holds the key. */
  predicate Holds(hash: string -> int, s: Cluster, loop: Loop, key: int) {
    && (IsRunning(s, loop) || IsReleasing(s, loop))
    && key in s.locks && s.locks[key] == Hold(s.stages[loop].session, 1)
    && AdvisoryKey(hash, s.stages[loop].claim) == key
  }

  /** A lock that belongs to no loop's current run. */
  ghost predicate Leaked(hash: string -> int, s: Cluster, key: int) {
    key in s.locks && !exists p :: Holds(hash, s, p, key)
  }

  ghost predicate NoFailedUnlock(actions: seq<Action>) {
    forall i :: 0 <= i < |actions| ==> !actions[i].UnlockFails?
  }

  lemma StepLeaksNothing(hash: string -> int, s: Cluster, a: Action, key: int)
    requires PinsApart(s) && !a.UnlockFails? && !Leaked(hash, s, key)
    ensures !Leaked(hash, Step(hash, s, a), key)
  {
    var s' := Step(hash, s, a);
    if key in s.locks {
      var p :| Holds(hash, s, p, key);
      assert Pins(s, p, s.stages[p].session);
      if key in s'.locks {
        assert Holds(hash, s', p, key);
      }
    } else if key in s'.locks {
      assert Holds(hash, s', a.loop, key);
    }
  }

  /** Locks leak only through an unlock that failed. */
  lemma {:induction false} NoLeakWithoutFailure(hash: string -> int, actions: seq<Action>, key: int)
    requires NoFailedUnlock(actions)
    ensures !Leaked(hash, Run(hash, actions), key)
  {
    if actions != [] {
      NoLeakWithoutFailure(hash, actions[..|actions| - 1], key);
      RunPinsApart(hash, actions[..|actions| - 1]);
      StepLeaksNothing(hash, Run(hash, actions[..|actions| - 1]), actions[|actions| - 1], key);
    }
  }

  /**
   * A loop skips its run only for a good reason: unless an unlock failed, some other loop is running or releasing a
   * claim with the same key at that very moment; a hash collision can therefore cause a skip, and nothing else.
   */
  lemma SkipMeansLeaderElsewhere(hash: string -> int, actions: seq<Action>, loop: Loop, number: nat)
    requires NoFailedUnlock(actions) && IsAcquiring(Run(hash, actions), loop)
    requires IsFree(Run(hash, actions), Session(loop.pod, number))
    requires !IsRunning(Step(hash, Run(hash, actions), TryLock(loop, number)), loop)
    ensures var s := Run(hash, actions);
      exists p :: p != loop && Holds(hash, s, p, AdvisoryKey(hash, s.stages[loop].claim))
  {
    NoLeakWithoutFailure(hash, actions, AdvisoryKey(hash, Run(hash, actions).stages[loop].claim));
  }

  // ---------- how often a window's job is run ----------

  /** The step starts a job under this key. */
  ghost predicate StartsJob(hash: string -> int, s: Cluster, a: Action, key: int) {
    a.TryLock? && StartsLoop(hash, s, a, a.loop) && AdvisoryKey(hash, s.stages[a.loop].claim) == key
  }

  /** The step frees the key's lock. */
  ghost predicate Frees(hash: string -> int, s: Cluster, a: Action, key: int) {
    key in s.locks && key !in Step(hash, s, a).locks
  }

  /** The step starts a job on a session that still holds the key. */
  ghost predicate Reenters(hash: string -> int, s: Cluster, a: Action, key: int) {
    StartsJob(hash, s, a, key) && key in s.locks
  }

  /** The jobs started under a key. */
  ghost function StartCount(hash: string -> int, started: seq<(Loop, Claim)>, key: int): nat {
    if started == [] then 0
    else
      var n := |started| - 1;
      StartCount(hash, started[..n], key) + (if AdvisoryKey(hash, started[n].1) == key then 1 else 0)
  }

  ghost function FreeCount(hash: string -> int, actions: seq<Action>, key: int): nat {
    if actions == [] then 0
    else
      var n := |actions| - 1;
      FreeCount(hash, actions[..n], key) + (if Frees(hash, Run(hash, actions[..n]), actions[n], key) then 1 else 0)
  }

  ghost function ReentryCount(hash: string -> int, actions: seq<Action>, key: int): nat {
    if actions == [] then 0
    else
      var n := |actions| - 1;
      ReentryCount(hash, actions[..n], key)
        + (if Reenters(hash, Run(hash, actions[..n]), actions[n], key) then 1 else 0)
  }

  /** Only the holder's last unlock, its pod's death and the loss of its session free a lock. */
  lemma WhoFrees(hash: string -> int, s: Cluster, a: Action, key: int)
    requires key in s.locks
    ensures Frees(hash, s, a, key) <==>
      || (&& a.Unlock? && IsReleasing(s, a.loop) && AdvisoryKey(hash, s.stages[a.loop].claim) == key
          && s.locks[key].session == s.stages[a.loop].session && s.locks[key].depth <= 1)
      || (a.Crash? && s.locks[key].session.pod == a.pod)
      || (a.SessionLost? && s.locks[key].session == a.session)
  {
  }

  lemma StartedMore(hash: string -> int, started: seq<(Loop, Claim)>, e: (Loop, Claim), key: int)
    ensures StartCount(hash, started + [e], key)
         == StartCount(hash, started, key) + (if AdvisoryKey(hash, e.1) == key then 1 else 0)
  {
    assert (started + [e])[..|started|] == started;
  }

  lemma StepCountsStarts(hash: string -> int, s: Cluster, a: Action, key: int)
    ensures StartCount(hash, Step(hash, s, a).started, key)
         == StartCount(hash, s.started, key) + (if StartsJob(hash, s, a, key) then 1 else 0)
    ensures key in Step(hash, s, a).locks <==> StartsJob(hash, s, a, key) || (key in s.locks && !Frees(hash, s, a, key))
  {
    hide StartCount;
    if a.TryLock? && IsAcquiring(s, a.loop) {
      StartedMore(hash, s.started, (a.loop, s.stages[a.loop].claim), key);
    }
  }

  /**
   * Conservation, over every run: each start under a key is paid for by a lock that was freed since, by a session
   * that still held the key, or by the lock as it is held now.
   */
  lemma {:induction false} StartsAreAccounted(hash: string -> int, actions: seq<Action>, key: int)
    ensures StartCount(hash, Run(hash, actions).started, key)
         == FreeCount(hash, actions, key) + ReentryCount(hash, actions, key)
            + (if key in Run(hash, actions).locks then 1 else 0)
  {
    hide Step, StartsJob;
    if actions == [] {
      assert StartCount(hash, Run(hash, actions).started, key) == 0;
    } else {
      var before, a := actions[..|actions| - 1], actions[|actions| - 1];
      StartsAreAccounted(hash, before, key);
      StepCountsStarts(hash, Run(hash, before), a, key);
    }
  }

  /** The step is an unlock of the key by the session that holds it. */
  ghost predicate GivesBack(hash: string -> int, s: Cluster, a: Action, key: int) {
    && a.Unlock? && IsReleasing(s, a.loop) && AdvisoryKey(hash, s.stages[a.loop].claim) == key
    && key in s.locks && s.locks[key].session == s.stages[a.loop].session
  }

  /** The jobs started under the key since its lock was free. */
  ghost function TakenSince(hash: string -> int, actions: seq<Action>, key: int): nat {
    if actions == [] || key !in Run(hash, actions).locks then 0
    else
      var before, a := actions[..|actions| - 1], actions[|actions| - 1];
      TakenSince(hash, before, key) + (if StartsJob(hash, Run(hash, before), a, key) then 1 else 0)
  }

  /** The unlocks of its holder since then. */
  ghost function GivenBackSince(hash: string -> int, actions: seq<Action>, key: int): nat {
    if actions == [] || key !in Run(hash, actions).locks then 0
    else
      var before, a := actions[..|actions| - 1], actions[|actions| - 1];
      GivenBackSince(hash, before, key) + (if GivesBack(hash, Run(hash, before), a, key) then 1 else 0)
  }

  lemma {:induction false} DepthIsBalance(hash: string -> int, actions: seq<Action>, key: int)
    ensures key in Run(hash, actions).locks ==>
      0 < Run(hash, actions).locks[key].depth == TakenSince(hash, actions, key) - GivenBackSince(hash, actions, key)
  {
    if actions != [] {
      DepthIsBalance(hash, actions[..|actions| - 1], key);
    }
  }

  /**
   * A lock must be given back as often as it was taken: in every run, an unlock by the holder frees it exactly when
   * that makes the unlocks since the lock was free as many as the starts.
   */
  lemma UnlockFreesIff(hash: string -> int, actions: seq<Action>, a: Action, key: int)
    requires GivesBack(hash, Run(hash, actions), a, key)
    ensures Frees(hash, Run(hash, actions), a, key) <==>
      TakenSince(hash, actions, key) == GivenBackSince(hash, actions, key) + 1
  {
    DepthIsBalance(hash, actions, key);
  }

  /** Only a failed unlock lets a session start a job on a lock it still holds. */
  lemma {:induction false} NoReentryWithoutFailure(hash: string -> int, actions: seq<Action>, key: int)
    requires NoFailedUnlock(actions)
    ensures ReentryCount(hash, actions, key) == 0
  {
    if actions != [] {
      var before, a := actions[..|actions| - 1], actions[|actions| - 1];
      NoReentryWithoutFailure(hash, before, key);
      NoLeakWithoutFailure(hash, before, key);
      if Reenters(hash, Run(hash, before), a, key) {
        var p :| Holds(hash, Run(hash, before), p, key);
        assert Pins(Run(hash, before), p, Run(hash, before).stages[p].session);
      }
    }
  }

  /** Unless an unlock fails, a key's jobs are at most one more than the times its lock was freed. */
  lemma OneStartPerRelease(hash: string -> int, actions: seq<Action>, key: int)
    requires NoFailedUnlock(actions)
    ensures StartCount(hash, Run(hash, actions).started, key) <= FreeCount(hash, actions, key) + 1
  {
    StartsAreAccounted(hash, actions, key);
    NoReentryWithoutFailure(hash, actions, key);
  }

  /** A job was started under the key exactly when its lock is held or has been freed. */
  lemma {:induction false} StartedIffHeldOrFreed(hash: string -> int, actions: seq<Action>, key: int)
    ensures StartCount(hash, Run(hash, actions).started, key) > 0
       <==> key in Run(hash, actions).locks || FreeCount(hash, actions, key) > 0
  {
    if actions != [] {
      var before, a := actions[..|actions| - 1], actions[|actions| - 1];
      StartedIffHeldOrFreed(hash, before, key);
      StepCountsStarts(hash, Run(hash, before), a, key);
    }
  }

  /** A try at step i is granted under the key although the lock was freed before or is still held. */
  ghost predicate GrantedAgain(hash: string -> int, actions: seq<Action>, key: int, i: nat)
    requires i < |actions|
  {
    var s := Run(hash, actions[..i]);
    StartsJob(hash, s, actions[i], key) && (key in s.locks || FreeCount(hash, actions[..i], key) > 0)
  }

  lemma GrantedAgainBefore(hash: string -> int, actions: seq<Action>, key: int, n: nat, i: nat)
    requires i < n <= |actions|
    ensures GrantedAgain(hash, actions, key, i) <==> GrantedAgain(hash, actions[..n], key, i)
  {
    assert actions[..n][..i] == actions[..i];
  }

  lemma GrantedAgainLast(hash: string -> int, actions: seq<Action>, key: int)
    requires actions != []
    ensures var n := |actions| - 1;
      GrantedAgain(hash, actions, key, n) <==>
        && StartCount(hash, Run(hash, actions).started, key) > StartCount(hash, Run(hash, actions[..n]).started, key)
        && StartCount(hash, Run(hash, actions[..n]).started, key) > 0
    ensures StartCount(hash, Run(hash, actions).started, key)
         <= StartCount(hash, Run(hash, actions[..|actions| - 1]).started, key) + 1
  {
    hide Step, StartCount, StartsJob;
    var n := |actions| - 1;
    StepCountsStarts(hash, Run(hash, actions[..n]), actions[n], key);
    StartedIffHeldOrFreed(hash, actions[..n], key);
  }

  lemma {:induction false} SecondStart(hash: string -> int, actions: seq<Action>, key: int) returns (i: nat)
    requires StartCount(hash, Run(hash, actions).started, key) >= 2
    ensures i < |actions| && GrantedAgain(hash, actions, key, i)
  {
    hide GrantedAgain, StartCount, Step;
    if actions == [] {
      NothingStarted(hash, key);
    } else {
      var n := |actions| - 1;
      GrantedAgainLast(hash, actions, key);
      if StartCount(hash, Run(hash, actions[..n]).started, key) >= 2 {
        i := SecondStart(hash, actions[..n], key);
        GrantedAgainBefore(hash, actions, key, n, i);
      } else {
        i := n;
      }
    }
  }

  lemma NothingStarted(hash: string -> int, key: int)
    ensures StartCount(hash, Run(hash, []).started, key) == 0
  {
  }

  lemma {:induction false} StartsOnlyGrow(hash: string -> int, actions: seq<Action>, key: int, i: nat)
    requires i <= |actions|
    ensures StartCount(hash, Run(hash, actions[..i]).started, key) <= StartCount(hash, Run(hash, actions).started, key)
    decreases |actions| - i
  {
    hide StartCount, Step;
    if i == |actions| {
      assert actions[..i] == actions;
    } else {
      assert actions[..i + 1][..i] == actions[..i];
      StepCountsStarts(hash, Run(hash, actions[..i]), actions[i], key);
      StartsOnlyGrow(hash, actions, key, i + 1);
    }
  }

  /**
   * What "once per window" comes to, over every run: two jobs are started under a key exactly when a try for it is
   * granted after its lock was freed, or on a session that a failed unlock left holding it.
   */
  lemma TwiceIffGrantedAgain(hash: string -> int, actions: seq<Action>, key: int)
    ensures StartCount(hash, Run(hash, actions).started, key) >= 2
       <==> exists i :: 0 <= i < |actions| && GrantedAgain(hash, actions, key, i)
  {
    hide GrantedAgain, StartCount, Run;
    if StartCount(hash, Run(hash, actions).started, key) >= 2 {
      var i := SecondStart(hash, actions, key);
    }
    if i :| 0 <= i < |actions| && GrantedAgain(hash, actions, key, i) {
      GrantedAgainBefore(hash, actions, key, i + 1, i);
      GrantedAgainLast(hash, actions[..i + 1], key);
      StartsOnlyGrow(hash, actions, key, i + 1);
    }
  }

  function OneRun(loop: Loop, claim: Claim): seq<Action> {
    [Attempt(loop, claim), TryLock(loop, 0), Return(loop), Unlock(loop)]
  }

  lemma OneRunStarts(hash: string -> int, actions: seq<Action>, loop: Loop, claim: Claim)
    requires var s := Run(hash, actions); s.locks == map[] && s.stages == map[]
    ensures var s := Run(hash, actions + OneRun(loop, claim));
      s.locks == map[] && s.stages == map[] && s.started == Run(hash, actions).started + [(loop, claim)]
  {
    var one := actions + [Attempt(loop, claim)];
    var two := one + [TryLock(loop, 0)];
    var three := two + [Return(loop)];
    RunAppend(hash, actions, Attempt(loop, claim));
    RunAppend(hash, one, TryLock(loop, 0));
    RunAppend(hash, two, Return(loop));
    RunAppend(hash, three, Unlock(loop));
    assert actions + OneRun(loop, claim) == three + [Unlock(loop)];
  }

  /** The lock is free again when a job returns: two loops that tick one after the other both run one window's job. */
  lemma WindowCanRunTwice(hash: string -> int, claim: Claim, p: Loop, q: Loop) returns (actions: seq<Action>)
    ensures NoFailedUnlock(actions) && Run(hash, actions).started == [(p, claim), (q, claim)]
  {
    var first := [] + OneRun(p, claim);
    OneRunStarts(hash, [], p, claim);
    OneRunStarts(hash, first, q, claim);
    actions := first + OneRun(q, claim);
  }
}
