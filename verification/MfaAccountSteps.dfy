/**
 * The per-account attempt check and its sweeper (internal/auth/mfa_rate_limit.go:139-200), cut into their separate
 * atomic steps. The sweeper deletes a key after it has unlocked the record it tested, so it can drop a record whose
 * window was rolled forward in between: the account then starts over with a fresh record. Only such late deletions hand
 * an account another budget of two windows of successes; a deletion of an outdated record nobody uses is like a roll.
 */
module MfaAccountSteps {
  import opened MfaRateLimit

  type Thread = nat

  /** A record object; the store refers to it by its index, and threads keep such references. */
  datatype Object = Object(user: User, rec: AccountRecord)

  /** Where a check stands: it has built its fresh record, or it has loaded the record to lock. */
  datatype Check =
    | Stamped(user: User, isVerify: bool, windowStart: int)
    | Loaded(index: nat, isVerify: bool)

  /** Where the sweeper stands: it reads its cutoff once, then tests and deletes keys one at a time. */
  datatype Sweeper = Idle | Sweeping(cutoff: int) | Deleting(cutoff: int, user: User)

  datatype Success = Success(index: nat, user: User, isVerify: bool, at: int)

  datatype State = State(
    clock: int, objects: seq<Object>, store: map<User, nat>, checks: map<Thread, Check>, sweeper: Sweeper,
    log: seq<Success>)

  datatype Action =
    | Tick(d: nat)
    | Begin(thread: Thread, user: User, isVerify: bool)
    | LoadOrStore(thread: Thread)
    | LockedCheck(thread: Thread)
    | SweepStart
    | SweepTest(user: User)
    | SweepDelete
    | SweepEnd

  // ---------- the steps ----------

  function LoadStep(s: State, thread: Thread): State {
    if thread !in s.checks || !s.checks[thread].Stamped? then s
    else
      var c := s.checks[thread];
      if c.user in s.store then s.(checks := s.checks[thread := Loaded(s.store[c.user], c.isVerify)])
      else s.(objects := s.objects + [Object(c.user, AccountRecord(0, 0, c.windowStart))],
              store := s.store[c.user := |s.objects|],
              checks := s.checks[thread := Loaded(|s.objects|, c.isVerify)])
  }

  /** The record once an elapsed window has been rolled forward. */
  function RolledRecord(rec: AccountRecord, now: int): AccountRecord {
    if now - rec.windowStart >= ACCOUNT_WINDOW then AccountRecord(0, 0, now) else rec
  }

  function Increased(rec: AccountRecord, isVerify: bool): AccountRecord {
    if isVerify then rec.(verify := rec.verify + 1) else rec.(recovery := rec.recovery + 1)
  }

  /** What runs under the record's lock, with one reading of the clock. */
  function CheckStep(s: State, thread: Thread): State {
    if thread !in s.checks || !s.checks[thread].Loaded? || s.checks[thread].index >= |s.objects| then s
    else
      var i, isVerify := s.checks[thread].index, s.checks[thread].isVerify;
      var o := s.objects[i];
      var rec := RolledRecord(o.rec, s.clock);
      if Count(rec, isVerify) >= AccountCap(isVerify)
      then s.(objects := s.objects[i := o.(rec := rec)], checks := s.checks - {thread})
      else s.(objects := s.objects[i := o.(rec := Increased(rec, isVerify))],
              checks := s.checks - {thread},
              log := s.log + [Success(i, o.user, isVerify, s.clock)])
  }

  function SweepTestStep(s: State, user: User): State {
    if s.sweeper.Sweeping? && user in s.store && s.store[user] < |s.objects|
       && s.objects[s.store[user]].rec.windowStart < s.sweeper.cutoff
    then s.(sweeper := Deleting(s.sweeper.cutoff, user)) else s
  }

  function Next(s: State, a: Action): State {
    match a
    case Tick(d) => s.(clock := s.clock + d)
    case Begin(thread, user, isVerify) =>
      if thread in s.checks then s else s.(checks := s.checks[thread := Stamped(user, isVerify, s.clock)])
    case LoadOrStore(thread) => LoadStep(s, thread)
    case LockedCheck(thread) => CheckStep(s, thread)
    case SweepStart => if s.sweeper.Idle? then s.(sweeper := Sweeping(s.clock - ACCOUNT_WINDOW)) else s
    case SweepTest(user) => SweepTestStep(s, user)
    case SweepDelete =>
      if s.sweeper.Deleting?
      then s.(store := s.store - {s.sweeper.user}, sweeper := Sweeping(s.sweeper.cutoff)) else s
    case SweepEnd => if s.sweeper.Sweeping? then s.(sweeper := Idle) else s
  }

  ghost function Run(clock: int, actions: seq<Action>): State {
    if actions == [] then State(clock, [], map[], map[], Idle, [])
    else Next(Run(clock, actions[..|actions| - 1]), actions[|actions| - 1])
  }

  lemma RunAppend(clock: int, actions: seq<Action>, a: Action)
    ensures Run(clock, actions + [a]) == Next(Run(clock, actions), a)
  {
    assert (actions + [a])[..|actions|] == actions;
  }

  /** The step deletes the user's key. */
  ghost predicate Drops(s: State, a: Action, user: User) {
    a.SweepDelete? && s.sweeper.Deleting? && s.sweeper.user == user && user in s.store
  }

  predicate IsCheckOf(s: State, c: Check, user: User) {
    match c
    case Stamped(owner, _, _) => owner == user
    case Loaded(i, _) => i < |s.objects| && s.objects[i].user == user
  }

  /** The deletion comes late: the window was rolled forward after the test, or a check of the user is under way. */
  ghost predicate DropsLate(s: State, a: Action, user: User) {
    && Drops(s, a, user)
    && (|| (s.store[user] < |s.objects| && s.clock - s.objects[s.store[user]].rec.windowStart < ACCOUNT_WINDOW)
        || exists t :: t in s.checks && IsCheckOf(s, s.checks[t], user))
  }

  ghost function LateDropCount(clock: int, actions: seq<Action>, user: User): nat {
    if actions == [] then 0
    else
      var before, a := actions[..|actions| - 1], actions[|actions| - 1];
      LateDropCount(clock, before, user) + (if DropsLate(Run(clock, before), a, user) then 1 else 0)
  }

  // ---------- successes in an interval ----------

  predicate InInterval(at: int, start: int) {
    start <= at < start + 15 * 60_000_000_000
  }

  ghost function UserSuccesses(log: seq<Success>, user: User, isVerify: bool, start: int): nat {
    if log == [] then 0
    else
      var e := log[|log| - 1];
      UserSuccesses(log[..|log| - 1], user, isVerify, start)
        + (if e.user == user && e.isVerify == isVerify && InInterval(e.at, start) then 1 else 0)
  }

  // ---------- the budgets of an account ----------

  /** What a budget stands with: no record yet, a record, or one evicted in time. */
  datatype Holder = Unused | Record(index: nat) | Evicted(since: int)

  /** The budgets of one user, and the budget each record of the user draws on. */
  datatype Ledger = Ledger(budget: map<nat, nat>, holders: seq<Holder>)

  /** A late deletion opens another budget; after any other the next record draws on the same one. */
  ghost function LedgerNext(l: Ledger, s: State, a: Action, user: User): (l': Ledger)
    requires l.holders != []
    ensures |l'.holders| == |l.holders| + (if DropsLate(s, a, user) then 1 else 0)
  {
    var k := |l.holders| - 1;
    if DropsLate(s, a, user) then l.(holders := l.holders + [Unused])
    else if Drops(s, a, user) then l.(holders := l.holders[k := Evicted(s.clock)])
    else if user !in s.store && user in Next(s, a).store
    then Ledger(l.budget[|s.objects| := k], l.holders[k := Record(|s.objects|)])
    else l
  }

  ghost function LedgerOf(clock: int, actions: seq<Action>, user: User): (l: Ledger)
    ensures |l.holders| == LateDropCount(clock, actions, user) + 1
  {
    if actions == [] then Ledger(map[], [Unused])
    else
      var before, a := actions[..|actions| - 1], actions[|actions| - 1];
      LedgerNext(LedgerOf(clock, before, user), Run(clock, before), a, user)
  }

  predicate Draws(e: Success, budget: map<nat, nat>, k: nat, isVerify: bool, start: int) {
    e.index in budget && budget[e.index] == k && e.isVerify == isVerify && InInterval(e.at, start)
  }

  /** Those counted against one budget. */
  ghost function Drawn(log: seq<Success>, budget: map<nat, nat>, k: nat, isVerify: bool, start: int): nat {
    if log == [] then 0
    else
      Drawn(log[..|log| - 1], budget, k, isVerify, start)
        + (if Draws(log[|log| - 1], budget, k, isVerify, start) then 1 else 0)
  }

  lemma {:induction false} OneSuccessMore(log: seq<Success>, e: Success, user: User, isVerify: bool, start: int)
    ensures UserSuccesses(log + [e], user, isVerify, start) == UserSuccesses(log, user, isVerify, start)
         + (if e.user == user && e.isVerify == isVerify && InInterval(e.at, start) then 1 else 0)
  {
    assert (log + [e])[..|log|] == log;
  }

  lemma {:induction false} OneDrawnMore(
    log: seq<Success>, e: Success, budget: map<nat, nat>, k: nat, isVerify: bool, start: int)
    ensures Drawn(log + [e], budget, k, isVerify, start)
         == Drawn(log, budget, k, isVerify, start) + (if Draws(e, budget, k, isVerify, start) then 1 else 0)
  {
    assert (log + [e])[..|log|] == log;
  }

  lemma {:induction false} NothingDrawn(log: seq<Success>, budget: map<nat, nat>, k: nat, isVerify: bool, start: int)
    requires k !in budget.Values
    ensures Drawn(log, budget, k, isVerify, start) == 0
  {
    if log != [] {
      NothingDrawn(log[..|log| - 1], budget, k, isVerify, start);
    }
  }

  /** A new record changes no earlier account. */
  lemma {:induction false} NewRecordDrewNothing(
    log: seq<Success>, budget: map<nat, nat>, i: nat, j: nat, k: nat, isVerify: bool, start: int)
    requires forall m :: 0 <= m < |log| ==> log[m].index != i
    ensures Drawn(log, budget[i := j], k, isVerify, start) == Drawn(log, budget, k, isVerify, start)
  {
    if log != [] {
      NewRecordDrewNothing(log[..|log| - 1], budget, i, j, k, isVerify, start);
    }
  }

  // ---------- the invariant ----------

  /** One record counts at most two windows of successes in the interval. */
  ghost predicate RecordBudget(rec: AccountRecord, isVerify: bool, start: int, now: int, n: nat) {
    var cap := AccountCap(isVerify);
    && (now < start ==> n == 0)
    && n <= 2 * cap
    && rec.windowStart <= now && Count(rec, isVerify) <= cap
    && (rec.windowStart < start ==> n <= Count(rec, isVerify))
    && (start <= rec.windowStart < start + ACCOUNT_WINDOW ==> n <= cap + Count(rec, isVerify))
  }

  ghost predicate Consistent(s: State) {
    && (forall u :: u in s.store ==> s.store[u] < |s.objects| && s.objects[s.store[u]].user == u)
    && (forall t :: t in s.checks && s.checks[t].Loaded? ==> s.checks[t].index < |s.objects|)
    && (forall t :: t in s.checks && s.checks[t].Stamped? ==> s.checks[t].windowStart <= s.clock)
    && (forall k :: 0 <= k < |s.log| ==>
          s.log[k].index < |s.objects| && s.objects[s.log[k].index].user == s.log[k].user)
  }

  ghost predicate StampedSince(s: State, user: User, since: int) {
    forall t :: t in s.checks && s.checks[t].Stamped? && s.checks[t].user == user ==> since <= s.checks[t].windowStart
  }

  /** Exactly the user's records draw on a budget, and a holder draws on its own. */
  ghost predicate Booked(s: State, l: Ledger, user: User) {
    && (forall i :: i in l.budget <==> 0 <= i < |s.objects| && s.objects[i].user == user)
    && (forall i :: i in l.budget ==> l.budget[i] < |l.holders|)
    && (forall k :: 0 <= k < |l.holders| && l.holders[k].Record? ==>
          l.holders[k].index in l.budget && l.budget[l.holders[k].index] == k)
  }

  /** A check under way refers to the record that holds its budget. */
  ghost predicate ChecksHold(s: State, l: Ledger, user: User)
    requires Booked(s, l, user)
  {
    forall t :: t in s.checks && s.checks[t].Loaded? && s.checks[t].index in l.budget ==>
      l.holders[l.budget[s.checks[t].index]] == Record(s.checks[t].index)
  }

  /** The last budget is held by the stored record, if there is one. */
  ghost predicate LastHolds(s: State, h: Holder, user: User) {
    match h
    case Unused => user !in s.store
    case Record(i) => user in s.store && s.store[user] == i
    case Evicted(since) => user !in s.store && since <= s.clock && StampedSince(s, user, since)
  }

  /** The ledger fits the state. */
  ghost predicate Accounted(s: State, l: Ledger, user: User) {
    && l.holders != [] && Booked(s, l, user) && ChecksHold(s, l, user)
    && LastHolds(s, l.holders[|l.holders| - 1], user)
  }

  /** An evicted record stands as one whose window was rolled forward at its eviction. */
  ghost predicate HolderBudget(s: State, h: Holder, isVerify: bool, start: int, n: nat) {
    match h
    case Unused => n == 0
    case Record(i) => i < |s.objects| && RecordBudget(s.objects[i].rec, isVerify, start, s.clock, n)
    case Evicted(since) => RecordBudget(AccountRecord(0, 0, since), isVerify, start, s.clock, n)
  }

  ghost predicate Budgeted(s: State, l: Ledger, isVerify: bool, start: int) {
    forall k :: 0 <= k < |l.holders| ==>
      HolderBudget(s, l.holders[k], isVerify, start, Drawn(s.log, l.budget, k, isVerify, start))
  }

  /** One locked check of a record. */
  lemma CheckedRecord(rec: AccountRecord, kind: bool, isVerify: bool, start: int, now: int, n: nat)
    requires RecordBudget(rec, isVerify, start, now, n)
    ensures var rolled := RolledRecord(rec, now);
      && RecordBudget(rolled, isVerify, start, now, n)
      && (Count(rolled, kind) < AccountCap(kind) ==>
            RecordBudget(Increased(rolled, kind), isVerify, start, now,
                         if kind == isVerify && InInterval(now, start) then n + 1 else n))
  {
  }

  lemma StepKeepsConsistency(s: State, a: Action)
    requires Consistent(s)
    ensures Consistent(Next(s, a))
  {
    hide RolledRecord, Increased;
  }

  /** What the ledger becomes when a check loads its record. */
  lemma LoadLedger(s: State, l: Ledger, thread: Thread, user: User)
    requires l.holders != []
    ensures var s', l', n := LoadStep(s, thread), LedgerNext(l, s, LoadOrStore(thread), user), |l.holders| - 1;
      if user !in s.store && thread in s.checks && s.checks[thread].Stamped? && s.checks[thread].user == user
      then l' == Ledger(l.budget[|s.objects| := n], l.holders[n := Record(|s.objects|)])
      else l' == l
  {
  }

  lemma LoadKeepsBooks(s: State, l: Ledger, thread: Thread, user: User)
    requires Consistent(s) && Accounted(s, l, user)
    ensures Booked(LoadStep(s, thread), LedgerNext(l, s, LoadOrStore(thread), user), user)
  {
    hide LedgerNext, ChecksHold;
    LoadLedger(s, l, thread, user);
  }

  lemma LoadKeepsChecks(s: State, l: Ledger, thread: Thread, user: User)
    requires Consistent(s) && Accounted(s, l, user)
    requires Booked(LoadStep(s, thread), LedgerNext(l, s, LoadOrStore(thread), user), user)
    ensures ChecksHold(LoadStep(s, thread), LedgerNext(l, s, LoadOrStore(thread), user), user)
  {
    hide LedgerNext;
    LoadLedger(s, l, thread, user);
  }

  lemma LoadKeepsAccount(s: State, l: Ledger, thread: Thread, user: User)
    requires Consistent(s) && Accounted(s, l, user)
    ensures Accounted(LoadStep(s, thread), LedgerNext(l, s, LoadOrStore(thread), user), user)
  {
    hide LedgerNext, Booked, ChecksHold;
    LoadLedger(s, l, thread, user);
    LoadKeepsBooks(s, l, thread, user);
    LoadKeepsChecks(s, l, thread, user);
  }

  /** A fresh record continues an evicted one. */
  lemma LoadKeepsBudget(s: State, l: Ledger, thread: Thread, user: User, isVerify: bool, start: int)
    requires Consistent(s) && Accounted(s, l, user) && Budgeted(s, l, isVerify, start)
    ensures Budgeted(LoadStep(s, thread), LedgerNext(l, s, LoadOrStore(thread), user), isVerify, start)
  {
    hide Drawn, LedgerNext;
    LoadLedger(s, l, thread, user);
    var s', l', n := LoadStep(s, thread), LedgerNext(l, s, LoadOrStore(thread), user), |l.holders| - 1;
    if user !in s.store && user in s'.store {
      var i := |s.objects|;
      forall k | 0 <= k < |l.holders|
        ensures HolderBudget(s', l'.holders[k], isVerify, start, Drawn(s.log, l'.budget, k, isVerify, start))
      {
        NewRecordDrewNothing(s.log, l.budget, i, n, k, isVerify, start);
        assert HolderBudget(s, l.holders[k], isVerify, start, Drawn(s.log, l.budget, k, isVerify, start));
      }
    } else {
      assert l' == l;
    }
  }

  lemma CheckKeepsAccount(s: State, l: Ledger, thread: Thread, user: User)
    requires Consistent(s) && Accounted(s, l, user)
    ensures Accounted(CheckStep(s, thread), l, user)
  {
    hide RolledRecord, Increased;
  }

  lemma CheckKeepsBudget(s: State, l: Ledger, thread: Thread, user: User, isVerify: bool, start: int)
    requires Consistent(s) && Accounted(s, l, user) && Budgeted(s, l, isVerify, start)
    ensures Budgeted(CheckStep(s, thread), l, isVerify, start)
  {
    hide Drawn, RecordBudget, RolledRecord, Increased;
    if thread in s.checks && s.checks[thread].Loaded? {
      var s', i, kind := CheckStep(s, thread), s.checks[thread].index, s.checks[thread].isVerify;
      var e := Success(i, s.objects[i].user, kind, s.clock);
      forall k | 0 <= k < |l.holders|
        ensures HolderBudget(s', l.holders[k], isVerify, start, Drawn(s'.log, l.budget, k, isVerify, start))
      {
        OneDrawnMore(s.log, e, l.budget, k, isVerify, start);
        if l.holders[k] == Record(i) {
          CheckedRecord(s.objects[i].rec, kind, isVerify, start, s.clock,
                        Drawn(s.log, l.budget, k, isVerify, start));
        }
      }
    }
  }

  lemma DeleteKeepsAccount(s: State, l: Ledger, user: User)
    requires Consistent(s) && Accounted(s, l, user)
    ensures Accounted(Next(s, SweepDelete), LedgerNext(l, s, SweepDelete, user), user)
  {
    var s', l' := Next(s, SweepDelete), LedgerNext(l, s, SweepDelete, user);
    assert Booked(s', l', user);
    if Drops(s, SweepDelete, user) && !DropsLate(s, SweepDelete, user) {
      assert forall t :: t in s.checks ==> !IsCheckOf(s, s.checks[t], user);
    }
    assert ChecksHold(s', l', user);
  }

  lemma DeleteKeepsBudget(s: State, l: Ledger, user: User, isVerify: bool, start: int)
    requires Consistent(s) && Accounted(s, l, user) && Budgeted(s, l, isVerify, start)
    ensures Budgeted(Next(s, SweepDelete), LedgerNext(l, s, SweepDelete, user), isVerify, start)
  {
    hide Drawn, RecordBudget, ChecksHold;
    if DropsLate(s, SweepDelete, user) {
      NothingDrawn(s.log, l.budget, |l.holders|, isVerify, start);
    } else if Drops(s, SweepDelete, user) {
      var k := |l.holders| - 1;
      assert HolderBudget(s, l.holders[k], isVerify, start, Drawn(s.log, l.budget, k, isVerify, start));
      CheckedRecord(s.objects[s.store[user]].rec, isVerify, isVerify, start, s.clock,
                    Drawn(s.log, l.budget, k, isVerify, start));
    }
  }

  lemma TickKeepsBudget(s: State, l: Ledger, d: nat, user: User, isVerify: bool, start: int)
    requires Accounted(s, l, user) && Budgeted(s, l, isVerify, start)
    ensures var s' := Next(s, Tick(d)); Accounted(s', l, user) && Budgeted(s', l, isVerify, start)
  {
    hide Drawn;
  }

  lemma LedgerStays(s: State, l: Ledger, a: Action, user: User)
    requires l.holders != [] && !a.LoadOrStore? && !a.SweepDelete?
    ensures LedgerNext(l, s, a, user) == l
  {
    hide RolledRecord, Increased;
  }

  /** A check that begins, and the sweeper when it deletes nothing. */
  lemma SmallStepKeepsBudget(s: State, l: Ledger, a: Action, user: User, isVerify: bool, start: int)
    requires Accounted(s, l, user) && Budgeted(s, l, isVerify, start)
    requires a.Begin? || a.SweepStart? || a.SweepTest? || a.SweepEnd?
    ensures Accounted(Next(s, a), l, user) && Budgeted(Next(s, a), l, isVerify, start)
  {
    hide Drawn, RecordBudget;
  }

  /** Every step keeps each budget of the user within two windows of successes. */
  lemma StepKeepsBudget(s: State, l: Ledger, a: Action, user: User, isVerify: bool, start: int)
    requires Consistent(s) && Accounted(s, l, user) && Budgeted(s, l, isVerify, start)
    ensures Consistent(Next(s, a))
    ensures Accounted(Next(s, a), LedgerNext(l, s, a, user), user)
    ensures Budgeted(Next(s, a), LedgerNext(l, s, a, user), isVerify, start)
  {
    hide LedgerNext, Consistent, Booked, ChecksHold, LastHolds, Budgeted, LoadStep, CheckStep, SweepTestStep;
    StepKeepsConsistency(s, a);
    match a
    case LoadOrStore(thread) =>
      LoadKeepsAccount(s, l, thread, user);
      LoadKeepsBudget(s, l, thread, user, isVerify, start);
    case SweepDelete =>
      DeleteKeepsAccount(s, l, user);
      DeleteKeepsBudget(s, l, user, isVerify, start);
    case _ =>
      LedgerStays(s, l, a, user);
      match a {
        case Tick(d) => TickKeepsBudget(s, l, d, user, isVerify, start);
        case LockedCheck(thread) =>
          CheckKeepsAccount(s, l, thread, user);
          CheckKeepsBudget(s, l, thread, user, isVerify, start);
        case _ => SmallStepKeepsBudget(s, l, a, user, isVerify, start);
      }
  }

  lemma {:induction false} RunIsBudgeted(clock: int, actions: seq<Action>, user: User, isVerify: bool, start: int)
    ensures var s, l := Run(clock, actions), LedgerOf(clock, actions, user);
      Consistent(s) && Accounted(s, l, user) && Budgeted(s, l, isVerify, start)
  {
    hide Next, LedgerNext;
    if actions != [] {
      var before, a := actions[..|actions| - 1], actions[|actions| - 1];
      RunIsBudgeted(clock, before, user, isVerify, start);
      StepKeepsBudget(Run(clock, before), LedgerOf(clock, before, user), a, user, isVerify, start);
    }
  }
}
