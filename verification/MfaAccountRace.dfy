/** The cap of an account over every interleaving of its checks and the sweeper. */
module MfaAccountRace {
  import opened MfaRateLimit
  import opened MfaAccountSteps

  // ---------- the cap ----------

  /** The successes on the first m budgets. */
  ghost function Total(log: seq<Success>, l: Ledger, m: nat, isVerify: bool, start: int): nat {
    if m == 0 then 0 else Total(log, l, m - 1, isVerify, start) + Drawn(log, l.budget, m - 1, isVerify, start)
  }

  lemma {:induction false} TotalIsCapped(s: State, l: Ledger, m: nat, isVerify: bool, start: int)
    requires m <= |l.holders| && Budgeted(s, l, isVerify, start)
    ensures Total(s.log, l, m, isVerify, start) <= (if isVerify then 30 else 12) * m
  {
    hide Drawn;
    if m > 0 {
      TotalIsCapped(s, l, m - 1, isVerify, start);
      assert HolderBudget(s, l.holders[m - 1], isVerify, start, Drawn(s.log, l.budget, m - 1, isVerify, start));
    }
  }

  lemma {:induction false} TotalOfOneMore(log: seq<Success>, e: Success, l: Ledger, m: nat, isVerify: bool, start: int)
    ensures Total(log + [e], l, m, isVerify, start) == Total(log, l, m, isVerify, start)
      + (if e.index in l.budget && l.budget[e.index] < m && e.isVerify == isVerify && InInterval(e.at, start)
         then 1 else 0)
  {
    hide Drawn;
    if m > 0 {
      TotalOfOneMore(log, e, l, m - 1, isVerify, start);
      OneDrawnMore(log, e, l.budget, m - 1, isVerify, start);
    }
  }

  lemma {:induction false} TotalOfNothing(l: Ledger, m: nat, isVerify: bool, start: int)
    ensures Total([], l, m, isVerify, start) == 0
  {
    if m > 0 {
      TotalOfNothing(l, m - 1, isVerify, start);
    }
  }

  /** Every success is on the budget of the record it was made on. */
  lemma {:induction false} EverySuccessHasItsBudget(s: State, l: Ledger, user: User, isVerify: bool, start: int)
    requires Consistent(s) && Accounted(s, l, user)
    ensures UserSuccesses(s.log, user, isVerify, start) == Total(s.log, l, |l.holders|, isVerify, start)
    decreases |s.log|
  {
    hide Drawn, Total;
    if s.log == [] {
      TotalOfNothing(l, |l.holders|, isVerify, start);
    } else {
      var n := |s.log| - 1;
      var before, e := s.(log := s.log[..n]), s.log[n];
      EverySuccessHasItsBudget(before, l, user, isVerify, start);
      TotalOfOneMore(before.log, e, l, |l.holders|, isVerify, start);
      assert s.log == before.log + [e];
    }
  }

  /**
   * The account cap under every interleaving of checks and sweeps, with any number of checks in flight: any half-open
   * 15-minute interval holds at most 30 successful verify and 12 successful recovery checks of a user, and as many
   * again for each late deletion of a record of the user. Deletions of outdated records nobody uses cost nothing.
   */
  lemma AtMostTwiceTheCapPerLateDeletion(clock: int, actions: seq<Action>, user: User, isVerify: bool, start: int)
    ensures UserSuccesses(Run(clock, actions).log, user, isVerify, start)
         <= (if isVerify then 30 else 12) * (LateDropCount(clock, actions, user) + 1)
  {
    hide *;
    var s, l := Run(clock, actions), LedgerOf(clock, actions, user);
    RunIsBudgeted(clock, actions, user, isVerify, start);
    EverySuccessHasItsBudget(s, l, user, isVerify, start);
    TotalIsCapped(s, l, |l.holders|, isVerify, start);
  }

  // ---------- a check that nothing interrupts ----------

  /** The map of the tracker that a state stands for. */
  ghost function Stored(s: State): map<User, AccountRecord>
    requires Consistent(s)
  {
    map u | u in s.store :: s.objects[s.store[u]].rec
  }

  lemma LoadStores(s: State, thread: Thread)
    requires Consistent(s) && thread in s.checks && s.checks[thread].Stamped?
    ensures var s', c := LoadStep(s, thread), s.checks[thread];
      && Consistent(s') && s'.log == s.log && s'.clock == s.clock
      && c.user in s'.store && s'.checks == s.checks[thread := Loaded(s'.store[c.user], c.isVerify)]
      && Stored(s') == Stored(s)[c.user := if c.user in Stored(s) then Stored(s)[c.user]
                                           else AccountRecord(0, 0, c.windowStart)]
  {
    StepKeepsConsistency(s, LoadOrStore(thread));
  }

  lemma CheckStores(s: State, thread: Thread, user: User, isVerify: bool)
    requires Consistent(s) && user in s.store && thread in s.checks
    requires s.checks[thread] == Loaded(s.store[user], isVerify)
    ensures var s', rec := CheckStep(s, thread), RolledRecord(Stored(s)[user], s.clock);
      var ok := Count(rec, isVerify) < AccountCap(isVerify);
      && Consistent(s') && s'.checks == s.checks - {thread}
      && |s'.log| == |s.log| + (if ok then 1 else 0)
      && Stored(s') == Stored(s)[user := if ok then Increased(rec, isVerify) else rec]
  {
    StepKeepsConsistency(s, LockedCheck(thread));
  }

  /** The three steps of a check, run without interruption, do what the tracker's check does. */
  lemma UninterruptedCheckIsAtomic(s: State, thread: Thread, user: User, isVerify: bool)
    requires Consistent(s) && thread !in s.checks
    ensures var s' := CheckStep(LoadStep(Next(s, Begin(thread, user, isVerify)), thread), thread);
      var ok := AccountAllows(Stored(s), user, isVerify, s.clock);
      && Consistent(s') && Stored(s') == AccountChecked(Stored(s), user, isVerify, s.clock)
      && |s'.log| == |s.log| + (if ok then 1 else 0) && s'.checks == s.checks
  {
    hide CheckStep, LoadStep, Next, Consistent, Stored;
    var begun := Next(s, Begin(thread, user, isVerify));
    var loaded := LoadStep(begun, thread);
    BeginStores(s, thread, user, isVerify);
    LoadStores(begun, thread);
    CheckStores(loaded, thread, user, isVerify);
    Overwrite(Stored(s), user, Stored(loaded)[user], Stored(CheckStep(loaded, thread))[user]);
    Overwrite(s.checks, thread, begun.checks[thread], loaded.checks[thread]);
  }

  lemma BeginStores(s: State, thread: Thread, user: User, isVerify: bool)
    requires Consistent(s) && thread !in s.checks
    ensures var s' := Next(s, Begin(thread, user, isVerify));
      && Consistent(s') && Stored(s') == Stored(s) && s'.log == s.log && s'.clock == s.clock && s'.store == s.store
      && s'.checks == s.checks[thread := Stamped(user, isVerify, s.clock)]
  {
    StepKeepsConsistency(s, Begin(thread, user, isVerify));
  }

  lemma Overwrite<K, V>(m: map<K, V>, k: K, v: V, w: V)
    ensures m[k := v][k := w] == m[k := w] && (k !in m ==> m[k := w] - {k} == m)
  {
  }

  // ---------- a deletion that comes too late ----------

  function CheckActions(user: User, isVerify: bool): seq<Action> {
    [Begin(0, user, isVerify), LoadOrStore(0), LockedCheck(0)]
  }

  function Checked(s: State, user: User, isVerify: bool): State {
    CheckStep(LoadStep(Next(s, Begin(0, user, isVerify)), 0), 0)
  }

  lemma CheckInRun(clock: int, actions: seq<Action>, user: User, isVerify: bool)
    ensures Run(clock, actions + CheckActions(user, isVerify)) == Checked(Run(clock, actions), user, isVerify)
  {
    var one := actions + [Begin(0, user, isVerify)];
    var two := one + [LoadOrStore(0)];
    RunAppend(clock, actions, Begin(0, user, isVerify));
    RunAppend(clock, one, LoadOrStore(0));
    RunAppend(clock, two, LockedCheck(0));
    assert actions + CheckActions(user, isVerify) == two + [LockedCheck(0)];
  }

  /** No check is under way, and the window the next check finds was opened at this time and has counted this many. */
  ghost predicate Ready(s: State, user: User, windowStart: int, used: nat) {
    && 0 !in s.checks
    && if user in s.store then
         && s.store[user] < |s.objects| && s.objects[s.store[user]].user == user
         && var rec := RolledRecord(s.objects[s.store[user]].rec, s.clock);
            rec.windowStart == windowStart && rec.verify == used
       else windowStart == s.clock && used == 0
  }

  /** The check counts in the window, which is then the stored one. */
  lemma {:induction false} CheckSucceeds(s: State, user: User, windowStart: int, used: nat, start: int)
    requires Ready(s, user, windowStart, used) && used < MAX_VERIFY_PER_ACCOUNT && InInterval(s.clock, start)
    requires s.clock - windowStart < ACCOUNT_WINDOW
    ensures var s' := Checked(s, user, true);
      && Ready(s', user, windowStart, used + 1) && user in s'.store && s'.clock == s.clock && s'.sweeper == s.sweeper
      && s'.objects[s'.store[user]].rec.windowStart == windowStart
      && UserSuccesses(s'.log, user, true, start) == UserSuccesses(s.log, user, true, start) + 1
  {
    var loaded := LoadStep(Next(s, Begin(0, user, true)), 0);
    CheckLoads(s, user, windowStart, used);
    hide LoadStep, Next;
    LockedCheckSucceeds(loaded, user, windowStart, used, start);
  }

  /** A check of thread 0 has loaded the user's stored record, which is as Ready says. */
  ghost predicate HasLoaded(s: State, user: User, windowStart: int, used: nat) {
    && user in s.store && s.store[user] < |s.objects| && s.objects[s.store[user]].user == user
    && 0 in s.checks && s.checks[0] == Loaded(s.store[user], true)
    && var rec := RolledRecord(s.objects[s.store[user]].rec, s.clock);
       rec.windowStart == windowStart && rec.verify == used
  }

  lemma {:induction false} CheckLoads(s: State, user: User, windowStart: int, used: nat)
    requires Ready(s, user, windowStart, used)
    ensures var s' := LoadStep(Next(s, Begin(0, user, true)), 0);
      HasLoaded(s', user, windowStart, used) && s'.clock == s.clock && s'.sweeper == s.sweeper && s'.log == s.log
  {
  }

  lemma {:induction false} LockedCheckSucceeds(s: State, user: User, windowStart: int, used: nat, start: int)
    requires HasLoaded(s, user, windowStart, used) && used < MAX_VERIFY_PER_ACCOUNT && InInterval(s.clock, start)
    requires s.clock - windowStart < ACCOUNT_WINDOW
    ensures var s' := CheckStep(s, 0);
      && Ready(s', user, windowStart, used + 1) && user in s'.store && s'.clock == s.clock && s'.sweeper == s.sweeper
      && s'.objects[s'.store[user]].rec.windowStart == windowStart
      && UserSuccesses(s'.log, user, true, start) == UserSuccesses(s.log, user, true, start) + 1
  {
    hide UserSuccesses;
    OneSuccessMore(s.log, Success(s.store[user], user, true, s.clock), user, true, start);
  }

  lemma {:induction false} ChecksSucceed(
    clock: int, actions: seq<Action>, user: User, windowStart: int, n: nat, start: int) returns (more: seq<Action>)
    requires var s := Run(clock, actions);
      Ready(s, user, windowStart, 0) && InInterval(s.clock, start) && s.clock - windowStart < ACCOUNT_WINDOW
    requires 0 < n <= MAX_VERIFY_PER_ACCOUNT
    ensures var s, s' := Run(clock, actions), Run(clock, more);
      && Ready(s', user, windowStart, n) && user in s'.store && s'.clock == s.clock && s'.sweeper == s.sweeper
      && s'.objects[s'.store[user]].rec.windowStart == windowStart
      && UserSuccesses(s'.log, user, true, start) == UserSuccesses(s.log, user, true, start) + n
  {
    hide Run, Checked, UserSuccesses, RolledRecord;
    more := actions;
    if n > 1 {
      more := ChecksSucceed(clock, actions, user, windowStart, n - 1, start);
    }
    CheckSucceeds(Run(clock, more), user, windowStart, n - 1, start);
    CheckInRun(clock, more, user, true);
    more := more + CheckActions(user, true);
  }

  /** The first check of all: a recovery check opens a window at time 0. */
  lemma FirstWindow(user: User)
    ensures var s := Run(0, CheckActions(user, false));
      && s.clock == 0 && s.store == map[user := 0] && s.checks == map[] && s.sweeper == Idle
      && s.objects == [Object(user, AccountRecord(0, 1, 0))] && s.log == [Success(0, user, false, 0)]
  {
    CheckInRun(0, [], user, false);
    assert [] + CheckActions(user, false) == CheckActions(user, false);
  }

  /** Time passes, the sweeper finds the record outdated, and is about to delete it. */
  lemma SweeperFindsRecord(clock: int, actions: seq<Action>, user: User, d: nat) returns (more: seq<Action>)
    requires var s := Run(clock, actions);
      && s.sweeper == Idle && user in s.store && s.store[user] < |s.objects|
      && s.objects[s.store[user]].rec.windowStart < s.clock + d - ACCOUNT_WINDOW
    ensures var s, s' := Run(clock, actions), Run(clock, more);
      s' == s.(clock := s.clock + d, sweeper := Deleting(s.clock + d - ACCOUNT_WINDOW, user))
  {
    var one := actions + [Tick(d)];
    var two := one + [SweepStart];
    more := two + [SweepTest(user)];
    RunAppend(clock, actions, Tick(d));
    RunAppend(clock, one, SweepStart);
    RunAppend(clock, two, SweepTest(user));
  }

  /**
   * Three times the cap within 15 minutes: as many checks as allowed just before a window ends, as many just after it,
   * which roll the record forward while the sweeper has tested and not yet deleted it, and as many on the fresh record
   * after the deletion.
   */
  lemma LateDeletionGivesThirdBudget(user: User) returns (actions: seq<Action>, start: int)
    ensures UserSuccesses(Run(0, actions).log, user, true, start) == 45
  {
    start := ACCOUNT_WINDOW - 1;
    var created := CheckActions(user, false);
    FirstWindow(user);
    var waited := created + [Tick(start)];
    RunAppend(0, created, Tick(start));
    assert UserSuccesses([Success(0, user, false, 0)], user, true, start) == 0;
    hide Run, UserSuccesses;
    var first := ChecksSucceed(0, waited, user, 0, MAX_VERIFY_PER_ACCOUNT, start);
    var found := SweeperFindsRecord(0, first, user, 2);
    var second := ChecksSucceed(0, found, user, ACCOUNT_WINDOW + 1, MAX_VERIFY_PER_ACCOUNT, start);
    var deleted := second + [SweepDelete];
    RunAppend(0, second, SweepDelete);
    actions := ChecksSucceed(0, deleted, user, ACCOUNT_WINDOW + 1, MAX_VERIFY_PER_ACCOUNT, start);
  }
}
