/** The second-factor attempt tracker, each method one atomic step. */
module MfaRateLimit {

  const MAX_VERIFY: nat := 5
  const MAX_RECOVERY: nat := 3
  const MAX_VERIFY_PER_ACCOUNT: nat := 15
  const MAX_RECOVERY_PER_ACCOUNT: nat := 6
  const MINUTE: int := 60_000_000_000
  const ACCOUNT_WINDOW: int := 15 * MINUTE
  const RECORD_AGE: int := 6 * MINUTE

  datatype AttemptRecord = AttemptRecord(verify: nat, recovery: nat, createdAt: int)

  datatype AccountRecord = AccountRecord(verify: nat, recovery: nat, windowStart: int)

  /** Token hashes and user ids. */
  type Token = string

  type User = nat

  // ---------- one step ----------

  function TokenCap(isVerify: bool): nat {
    if isVerify then MAX_VERIFY else MAX_RECOVERY
  }

  function AccountCap(isVerify: bool): nat {
    if isVerify then MAX_VERIFY_PER_ACCOUNT else MAX_RECOVERY_PER_ACCOUNT
  }

  function TokenCount(rec: AttemptRecord, isVerify: bool): nat {
    if isVerify then rec.verify else rec.recovery
  }

  function Count(rec: AccountRecord, isVerify: bool): nat {
    if isVerify then rec.verify else rec.recovery
  }

  function LoadedToken(store: map<Token, AttemptRecord>, token: Token, now: int): AttemptRecord {
    if token in store then store[token] else AttemptRecord(0, 0, now)
  }

  predicate TokenAllows(store: map<Token, AttemptRecord>, token: Token, isVerify: bool, now: int) {
    TokenCount(LoadedToken(store, token, now), isVerify) < TokenCap(isVerify)
  }

  function TokenChecked(store: map<Token, AttemptRecord>, token: Token, isVerify: bool, now: int)
    : map<Token, AttemptRecord>
  {
    var rec := LoadedToken(store, token, now);
    store[token :=
      if !TokenAllows(store, token, isVerify, now) then rec
      else if isVerify then rec.(verify := rec.verify + 1) else rec.(recovery := rec.recovery + 1)]
  }

  /** The account's record once an elapsed window has been rolled forward. */
  function Rolled(store: map<User, AccountRecord>, user: User, now: int): AccountRecord {
    if user in store && now - store[user].windowStart < ACCOUNT_WINDOW then store[user] else AccountRecord(0, 0, now)
  }

  predicate AccountAllows(store: map<User, AccountRecord>, user: User, isVerify: bool, now: int) {
    Count(Rolled(store, user, now), isVerify) < AccountCap(isVerify)
  }

  function AccountChecked(store: map<User, AccountRecord>, user: User, isVerify: bool, now: int)
    : map<User, AccountRecord>
  {
    var rec := Rolled(store, user, now);
    store[user :=
      if !AccountAllows(store, user, isVerify, now) then rec
      else if isVerify then rec.(verify := rec.verify + 1) else rec.(recovery := rec.recovery + 1)]
  }

  function SweptTokens(store: map<Token, AttemptRecord>, now: int): map<Token, AttemptRecord> {
    map t | t in store && store[t].createdAt >= now - RECORD_AGE :: store[t]
  }

  function SweptAccounts(store: map<User, AccountRecord>, now: int): map<User, AccountRecord> {
    map u | u in store && store[u].windowStart >= now - ACCOUNT_WINDOW :: store[u]
  }

  // ---------- the tracker ----------

  class MFAAttemptTracker {
    var store: map<Token, AttemptRecord>
    var userStore: map<User, AccountRecord>

    constructor ()
      ensures store == map[] && userStore == map[]
    {
      store, userStore := map[], map[];
    }

    method CheckAndIncrement(token: Token, isVerify: bool, now: int) returns (ok: bool)
      modifies this`store
      ensures ok == TokenAllows(old(store), token, isVerify, now)
      ensures store == TokenChecked(old(store), token, isVerify, now)
    {
      if token !in store {
        store := store[token := AttemptRecord(0, 0, now)];
      }
      var rec := store[token];
      if isVerify {
        if rec.verify >= MAX_VERIFY {
          return false;
        }
        rec := rec.(verify := rec.verify + 1);
      } else {
        if rec.recovery >= MAX_RECOVERY {
          return false;
        }
        rec := rec.(recovery := rec.recovery + 1);
      }
      store := store[token := rec];
      return true;
    }

    method CheckAndIncrementUser(user: User, isVerify: bool, now: int) returns (ok: bool)
      modifies this`userStore
      ensures ok == AccountAllows(old(userStore), user, isVerify, now)
      ensures userStore == AccountChecked(old(userStore), user, isVerify, now)
    {
      if user !in userStore {
        userStore := userStore[user := AccountRecord(0, 0, now)];
      }
      var rec := userStore[user];
      if now - rec.windowStart >= ACCOUNT_WINDOW {
        rec := AccountRecord(0, 0, now);
        userStore := userStore[user := rec];
      }
      if isVerify {
        if rec.verify >= MAX_VERIFY_PER_ACCOUNT {
          return false;
        }
        rec := rec.(verify := rec.verify + 1);
      } else {
        if rec.recovery >= MAX_RECOVERY_PER_ACCOUNT {
          return false;
        }
        rec := rec.(recovery := rec.recovery + 1);
      }
      userStore := userStore[user := rec];
      return true;
    }

    method Reset(token: Token)
      modifies this`store
      ensures store == old(store) - {token}
    {
      store := store - {token};
    }

    /** One turn of sweepLoop. */
    method Sweep(now: int)
      modifies this
      ensures store == SweptTokens(old(store), now)
      ensures userStore == SweptAccounts(old(userStore), now)
    {
      var tokens := store.Keys;
      while tokens != {}
        invariant tokens <= old(store).Keys
        invariant store == map t | t in old(store) && (t in tokens || old(store)[t].createdAt >= now - RECORD_AGE)
                           :: old(store)[t]
        invariant userStore == old(userStore)
        decreases |tokens|
      {
        var t :| t in tokens;
        if store[t].createdAt < now - RECORD_AGE {
          store := store - {t};
        }
        tokens := tokens - {t};
      }
      SweepUsers(now);
    }

    method SweepUsers(now: int)
      modifies this`userStore
      ensures userStore == SweptAccounts(old(userStore), now)
    {
      var users := userStore.Keys;
      while users != {}
        invariant users <= old(userStore).Keys
        invariant userStore == map u | u in old(userStore)
                                       && (u in users || old(userStore)[u].windowStart >= now - ACCOUNT_WINDOW)
                               :: old(userStore)[u]
        decreases |users|
      {
        var u :| u in users;
        if userStore[u].windowStart < now - ACCOUNT_WINDOW {
          userStore := userStore - {u};
        }
        users := users - {u};
      }
    }
  }

  // ---------- runs ----------

  datatype Event =
    | CheckToken(token: Token, isVerify: bool, now: int)
    | CheckUser(user: User, isVerify: bool, now: int)
    | Reset(token: Token, now: int)
    | Sweep(now: int)

  datatype Tracker = Tracker(store: map<Token, AttemptRecord>, users: map<User, AccountRecord>)

  function Step(t: Tracker, e: Event): Tracker {
    match e
    case CheckToken(token, isVerify, now) => t.(store := TokenChecked(t.store, token, isVerify, now))
    case CheckUser(user, isVerify, now) => t.(users := AccountChecked(t.users, user, isVerify, now))
    case Reset(token, _) => t.(store := t.store - {token})
    case Sweep(now) => Tracker(SweptTokens(t.store, now), SweptAccounts(t.users, now))
  }

  function Front(events: seq<Event>): seq<Event>
    requires events != []
  {
    events[..|events| - 1]
  }

  function Last(events: seq<Event>): Event
    requires events != []
  {
    events[|events| - 1]
  }

  ghost function After(events: seq<Event>): Tracker {
    if events == [] then Tracker(map[], map[]) else Step(After(Front(events)), Last(events))
  }

  /** The tracker after the same events without its sweeps. */
  ghost function AfterUnswept(events: seq<Event>): Tracker {
    if events == [] then Tracker(map[], map[])
    else if Last(events).Sweep? then AfterUnswept(Front(events))
    else Step(AfterUnswept(Front(events)), Last(events))
  }

  ghost predicate Monotone(events: seq<Event>) {
    forall i, j :: 0 <= i <= j < |events| ==> events[i].now <= events[j].now
  }

  // ---------- the cap of one token ----------

  /**
   * The checks of the token since its record was created: a reset forgets them, and so does a sweep more than six
   * minutes after the first of them.
   */
  ghost function LiveChecks(events: seq<Event>, token: Token): seq<Event> {
    if events == [] then []
    else
      var before := LiveChecks(Front(events), token);
      match Last(events)
      case CheckToken(t, _, _) => if t == token then before + [Last(events)] else before
      case Reset(t, _) => if t == token then [] else before
      case Sweep(now) => if before != [] && before[0].now < now - 6 * 60_000_000_000 then [] else before
      case CheckUser(_, _, _) => before
  }

  ghost function OfKind(checks: seq<Event>, isVerify: bool): nat {
    if checks == [] then 0
    else
      OfKind(Front(checks), isVerify) + (if Last(checks).CheckToken? && Last(checks).isVerify == isVerify then 1 else 0)
  }

  lemma {:induction false} RecordCountsChecks(events: seq<Event>, token: Token)
    ensures var store, checks := After(events).store, LiveChecks(events, token);
      && (token in store <==> checks != [])
      && (token in store ==>
            && store[token].createdAt == checks[0].now
            && store[token].verify == (if OfKind(checks, true) < 5 then OfKind(checks, true) else 5)
            && store[token].recovery == (if OfKind(checks, false) < 3 then OfKind(checks, false) else 3))
  {
    if events != [] {
      var before := LiveChecks(Front(events), token);
      RecordCountsChecks(Front(events), token);
      assert Front(before + [Last(events)]) == before;
    }
  }

  /**
   * Whatever else happens: the n-th verify check of a token since its record was created is allowed exactly when n is
   * at most 5, and the n-th recovery check exactly when n is at most 3.
   */
  lemma NthCheckIsAllowedIff(events: seq<Event>, token: Token, isVerify: bool, now: int)
    ensures var n := OfKind(LiveChecks(events, token), isVerify) + 1;
      TokenAllows(After(events).store, token, isVerify, now) <==> n <= if isVerify then 5 else 3
  {
    RecordCountsChecks(events, token);
  }

  // ---------- the cap of one window ----------

  /** The checks of the user in the window opened last: one that finds it 15 minutes old or swept opens the next. */
  ghost function WindowChecks(events: seq<Event>, user: User): seq<Event> {
    if events == [] then []
    else
      var before := WindowChecks(Front(events), user);
      match Last(events)
      case CheckUser(u, _, now) =>
        if u != user then before
        else if before != [] && now - before[0].now < 15 * 60_000_000_000 then before + [Last(events)]
        else [Last(events)]
      case Sweep(now) => if before != [] && before[0].now < now - 15 * 60_000_000_000 then [] else before
      case _ => before
  }

  ghost function OfKindForUser(checks: seq<Event>, isVerify: bool): nat {
    if checks == [] then 0
    else
      OfKindForUser(Front(checks), isVerify)
        + (if Last(checks).CheckUser? && Last(checks).isVerify == isVerify then 1 else 0)
  }

  lemma {:induction false} WindowCountsChecks(events: seq<Event>, user: User)
    ensures var users, checks := After(events).users, WindowChecks(events, user);
      && (user in users <==> checks != [])
      && (user in users ==>
            && users[user].windowStart == checks[0].now
            && users[user].verify == (if OfKindForUser(checks, true) < 15 then OfKindForUser(checks, true) else 15)
            && users[user].recovery == (if OfKindForUser(checks, false) < 6 then OfKindForUser(checks, false) else 6))
  {
    if events != [] {
      var before, e := WindowChecks(Front(events), user), Last(events);
      WindowCountsChecks(Front(events), user);
      assert Front(before + [e]) == before && Front([e]) == [];
      assert OfKindForUser([e], true) == (if e.CheckUser? && e.isVerify then 1 else 0);
      assert OfKindForUser([e], false) == (if e.CheckUser? && !e.isVerify then 1 else 0);
    }
  }

  /**
   * The n-th verify check of a user in a window is allowed exactly when n is at most 15, and the n-th recovery check
   * exactly when n is at most 6; a check that finds no window under 15 minutes old is the first of the next.
   */
  lemma NthAccountCheckIsAllowedIff(events: seq<Event>, user: User, isVerify: bool, now: int)
    ensures var checks := WindowChecks(events, user);
      var open := checks != [] && now - checks[0].now < 15 * 60_000_000_000;
      var n := if open then OfKindForUser(checks, isVerify) + 1 else 1;
      AccountAllows(After(events).users, user, isVerify, now) <==> n <= if isVerify then 15 else 6
  {
    WindowCountsChecks(events, user);
  }

  // ---------- sweeping is invisible ----------

  /** What was swept had a window that a check would roll forward. */
  lemma {:induction false} SweptAgrees(events: seq<Event>)
    requires Monotone(events)
    ensures forall u :: u in After(events).users ==>
      u in AfterUnswept(events).users && After(events).users[u] == AfterUnswept(events).users[u]
    ensures forall u :: u in AfterUnswept(events).users && u !in After(events).users ==>
      events != [] && Last(events).now - AfterUnswept(events).users[u].windowStart > ACCOUNT_WINDOW
  {
    if events != [] {
      SweptAgrees(Front(events));
    }
  }

  /** Every account check is answered as if nothing had ever been swept. */
  lemma SweepsAreInvisible(events: seq<Event>, user: User, isVerify: bool, now: int)
    requires Monotone(events) && (events != [] ==> Last(events).now <= now)
    ensures AccountAllows(After(events).users, user, isVerify, now)
       <==> AccountAllows(AfterUnswept(events).users, user, isVerify, now)
  {
    SweptAgrees(events);
  }

  // ---------- the cap over any interval ----------

  /** The last event is a successful check of this user and kind at a time in [start, start + window). */
  ghost predicate Succeeds(events: seq<Event>, user: User, isVerify: bool, start: int)
    requires events != []
  {
    var e := Last(events);
    && e.CheckUser? && e.user == user && e.isVerify == isVerify
    && start <= e.now < start + 15 * 60_000_000_000
    && AccountAllows(After(Front(events)).users, user, isVerify, e.now)
  }

  ghost function Successes(events: seq<Event>, user: User, isVerify: bool, start: int): nat {
    if events == [] then 0
    else Successes(Front(events), user, isVerify, start) + (if Succeeds(events, user, isVerify, start) then 1 else 0)
  }

  /** How many successes the state of the account's window still allows for. */
  ghost predicate WithinBudget(
    users: map<User, AccountRecord>, user: User, isVerify: bool, start: int, now: int, n: nat)
  {
    var cap := AccountCap(isVerify);
    && (now < start ==> n == 0)
    && n <= 2 * cap
    && if user !in users then now < start + ACCOUNT_WINDOW ==> n <= cap
       else
         var rec := users[user];
         && rec.windowStart <= now && Count(rec, isVerify) <= cap
         && (rec.windowStart < start ==> n <= Count(rec, isVerify))
         && (start <= rec.windowStart < start + ACCOUNT_WINDOW ==> n <= cap + Count(rec, isVerify))
  }

  lemma CheckKeepsBudget(
    users: map<User, AccountRecord>, user: User, isVerify: bool, start: int, before: int, e: Event, n: nat)
    requires WithinBudget(users, user, isVerify, start, before, n) && e.CheckUser? && before <= e.now
    ensures
      var counts := e.user == user && e.isVerify == isVerify && start <= e.now < start + ACCOUNT_WINDOW
                    && AccountAllows(users, user, isVerify, e.now);
      WithinBudget(AccountChecked(users, e.user, e.isVerify, e.now), user, isVerify, start, e.now,
                   if counts then n + 1 else n)
  {
  }

  lemma {:induction false} BudgetHolds(events: seq<Event>, user: User, isVerify: bool, start: int)
    requires Monotone(events) && events != []
    ensures WithinBudget(After(events).users, user, isVerify, start, Last(events).now,
                         Successes(events, user, isVerify, start))
  {
    var before, e := Front(events), Last(events);
    var n := Successes(before, user, isVerify, start);
    var t := if before == [] then e.now else Last(before).now;
    if before == [] {
      assert n == 0;
    } else {
      BudgetHolds(before, user, isVerify, start);
    }
    assert WithinBudget(After(before).users, user, isVerify, start, t, n);
    if e.CheckUser? {
      CheckKeepsBudget(After(before).users, user, isVerify, start, t, e, n);
    }
  }

  /**
   * Over every run, whatever tokens are minted, checked and reset and whenever the store is swept: any half-open
   * 15-minute interval holds at most 30 successful verify and 12 successful recovery checks of one user.
   */
  lemma AtMostTwiceTheCap(events: seq<Event>, user: User, isVerify: bool, start: int)
    requires Monotone(events)
    ensures Successes(events, user, isVerify, start) <= if isVerify then 30 else 12
  {
    if events != [] {
      BudgetHolds(events, user, isVerify, start);
    }
  }

  // ---------- exactly when the documented cap holds ----------

  ghost predicate CheckedBefore(events: seq<Event>, user: User) {
    exists i :: 0 <= i < |events| && events[i].CheckUser? && events[i].user == user
  }

  /** The last event is a check that finds the user's window over and opens a new one. */
  ghost predicate Renews(events: seq<Event>, user: User)
    requires events != []
  {
    var e, users := Last(events), After(Front(events)).users;
    && e.CheckUser? && e.user == user && CheckedBefore(Front(events), user)
    && !(user in users && e.now - users[user].windowStart < ACCOUNT_WINDOW)
  }

  /** No check inside the interval renews the window once a check has succeeded in it. */
  ghost predicate NoRenewalAfterSuccess(events: seq<Event>, user: User, isVerify: bool, start: int) {
    forall i :: 0 < i <= |events| && Renews(events[..i], user) && start < events[i - 1].now < start + ACCOUNT_WINDOW ==>
      Successes(Front(events[..i]), user, isVerify, start) == 0
  }

  /** All n successes in the interval are counted in the user's window. */
  ghost predicate InOneWindow(
    users: map<User, AccountRecord>, user: User, isVerify: bool, start: int, now: int, n: nat)
  {
    && n <= AccountCap(isVerify)
    && (now < start ==> n == 0)
    && (user in users ==> Count(users[user], isVerify) <= AccountCap(isVerify))
    && (n > 0 && now < start + ACCOUNT_WINDOW ==>
         if user in users then n <= Count(users[user], isVerify) && users[user].windowStart > start - ACCOUNT_WINDOW
         else now > start)
  }

  lemma CheckStaysInWindow(
    users: map<User, AccountRecord>, user: User, isVerify: bool, start: int, before: int, e: Event, n: nat)
    requires InOneWindow(users, user, isVerify, start, before, n) && e.CheckUser? && before <= e.now
    requires n > 0 && e.user == user && start < e.now < start + ACCOUNT_WINDOW ==>
      user in users && e.now - users[user].windowStart < ACCOUNT_WINDOW
    ensures
      var counts := e.user == user && e.isVerify == isVerify && start <= e.now < start + ACCOUNT_WINDOW
                    && AccountAllows(users, user, isVerify, e.now);
      InOneWindow(AccountChecked(users, e.user, e.isVerify, e.now), user, isVerify, start, e.now,
                  if counts then n + 1 else n)
  {
  }

  lemma {:induction false} SuccessMeansChecked(events: seq<Event>, user: User, isVerify: bool, start: int)
    requires Successes(events, user, isVerify, start) > 0
    ensures CheckedBefore(events, user)
  {
    if Succeeds(events, user, isVerify, start) {
      assert events[|events| - 1].CheckUser?;
    } else {
      SuccessMeansChecked(Front(events), user, isVerify, start);
    }
  }

  lemma {:induction false} RunStaysInWindow(events: seq<Event>, user: User, isVerify: bool, start: int)
    requires Monotone(events) && events != [] && NoRenewalAfterSuccess(events, user, isVerify, start)
    ensures InOneWindow(After(events).users, user, isVerify, start, Last(events).now,
                        Successes(events, user, isVerify, start))
  {
    var before, e := Front(events), Last(events);
    var n := Successes(before, user, isVerify, start);
    var t := if before == [] then e.now else Last(before).now;
    if before == [] {
      assert n == 0;
    } else {
      assert forall i :: 0 <= i <= |before| ==> before[..i] == events[..i];
      RunStaysInWindow(before, user, isVerify, start);
    }
    if e.CheckUser? {
      if n > 0 {
        SuccessMeansChecked(before, user, isVerify, start);
      }
      assert events[..|events|] == events;
      CheckStaysInWindow(After(before).users, user, isVerify, start, t, e, n);
    }
  }

  /** The documented cap holds in every interval in which no window is renewed after a success. */
  lemma CapHoldsWithoutRenewal(events: seq<Event>, user: User, isVerify: bool, start: int)
    requires Monotone(events) && NoRenewalAfterSuccess(events, user, isVerify, start)
    ensures Successes(events, user, isVerify, start) <= if isVerify then 15 else 6
  {
    if events != [] {
      RunStaysInWindow(events, user, isVerify, start);
    }
  }

  // ---------- twice the cap is reached ----------

  ghost function Repeated(e: Event, n: nat): seq<Event> {
    seq(n, _ => e)
  }

  lemma {:induction false} OneMoreSucceeds(events: seq<Event>, user: User, isVerify: bool, now: int, start: int)
    requires start <= now < start + ACCOUNT_WINDOW
    requires Count(Rolled(After(events).users, user, now), isVerify) < AccountCap(isVerify)
    ensures var more := events + [CheckUser(user, isVerify, now)];
      && Successes(more, user, isVerify, start) == Successes(events, user, isVerify, start) + 1
      && user in After(more).users
      && After(more).users[user].windowStart == Rolled(After(events).users, user, now).windowStart
      && Count(After(more).users[user], isVerify) == Count(Rolled(After(events).users, user, now), isVerify) + 1
  {
    var e := CheckUser(user, isVerify, now);
    assert Front(events + [e]) == events && Last(events + [e]) == e;
  }

  /** n more checks at one time all succeed while the window lasts and the cap allows. */
  lemma {:induction false} RepeatedSucceed(
    events: seq<Event>, user: User, isVerify: bool, now: int, n: nat, start: int)
    requires events != [] && start <= now < start + ACCOUNT_WINDOW
    requires Count(Rolled(After(events).users, user, now), isVerify) + n <= AccountCap(isVerify)
    ensures var more := events + Repeated(CheckUser(user, isVerify, now), n);
      && Successes(more, user, isVerify, start) == Successes(events, user, isVerify, start) + n
      && (n > 0 ==> (
            && user in After(more).users
            && After(more).users[user].windowStart == Rolled(After(events).users, user, now).windowStart
            && Count(After(more).users[user], isVerify) == Count(Rolled(After(events).users, user, now), isVerify) + n))
  {
    var e := CheckUser(user, isVerify, now);
    if n == 0 {
      assert events + Repeated(e, n) == events;
    } else {
      hide Successes, After;
      var shorter := events + Repeated(e, n - 1);
      RepeatedSucceed(events, user, isVerify, now, n - 1, start);
      assert n == 1 ==> shorter == events;
      OneMoreSucceeds(shorter, user, isVerify, now, start);
      assert events + Repeated(e, n) == shorter + [e];
    }
  }

  /** The user's window is renewed at time r and at no other. */
  ghost predicate RenewsOnlyAt(events: seq<Event>, user: User, r: int) {
    forall i :: 0 < i <= |events| && Renews(events[..i], user) ==> events[i - 1].now == r
  }

  /** A window opened at r - 15 minutes, then as many checks as allowed at the start of the interval, then at r. */
  ghost function Straddling(user: User, isVerify: bool, start: int, r: int): seq<Event> {
    [CheckUser(user, !isVerify, r - ACCOUNT_WINDOW)]
      + Repeated(CheckUser(user, isVerify, start), AccountCap(isVerify))
      + Repeated(CheckUser(user, isVerify, r), AccountCap(isVerify))
  }

  lemma StraddlingSucceeds(user: User, isVerify: bool, start: int, r: int)
    requires start < r < start + ACCOUNT_WINDOW
    ensures Monotone(Straddling(user, isVerify, start, r))
    ensures Successes(Straddling(user, isVerify, start, r), user, isVerify, start) == 2 * AccountCap(isVerify)
  {
    var first, cap := [CheckUser(user, !isVerify, r - ACCOUNT_WINDOW)], AccountCap(isVerify);
    assert Front(first) == [];
    assert Successes(first, user, isVerify, start) == 0;
    RepeatedSucceed(first, user, isVerify, start, cap, start);
    RepeatedSucceed(first + Repeated(CheckUser(user, isVerify, start), cap), user, isVerify, r, cap, start);
  }

  lemma StraddlingRenewsOnce(user: User, isVerify: bool, start: int, r: int)
    requires start < r < start + ACCOUNT_WINDOW
    ensures RenewsOnlyAt(Straddling(user, isVerify, start, r), user, r)
  {
    var first, cap := [CheckUser(user, !isVerify, r - ACCOUNT_WINDOW)], AccountCap(isVerify);
    var events, e := Straddling(user, isVerify, start, r), CheckUser(user, isVerify, start);
    assert Front(first) == [];
    forall i | 0 < i <= |events| && events[i - 1].now != r ensures !Renews(events[..i], user) {
      if i == 1 {
        assert Front(events[..i]) == [];
      } else {
        RepeatedSucceed(first, user, isVerify, start, i - 2, start);
        assert Front(events[..i]) == first + Repeated(e, i - 2);
        assert Last(events[..i]) == e;
      }
    }
  }

  /** Some run whose window is renewed at time r only has n successes in the interval. */
  ghost predicate CanReach(user: User, isVerify: bool, start: int, r: int, n: nat) {
    exists events ::
      RenewsOnlyAt(events, user, r) && Monotone(events) && Successes(events, user, isVerify, start) >= n
  }

  /**
   * The comment's "rolling window" is a fixed one: a run whose window is renewed at time r only can exceed the cap
   * within a 15-minute interval exactly when r lies strictly inside the interval; it then reaches twice the cap.
   */
  lemma CapExceededIffRenewedInside(user: User, isVerify: bool, start: int, r: int)
    ensures var inside := start < r < start + 15 * 60_000_000_000;
      && (CanReach(user, isVerify, start, r, if isVerify then 16 else 7) <==> inside)
      && (CanReach(user, isVerify, start, r, if isVerify then 30 else 12) <==> inside)
  {
    if start < r < start + ACCOUNT_WINDOW {
      StraddlingSucceeds(user, isVerify, start, r);
      StraddlingRenewsOnce(user, isVerify, start, r);
    } else {
      forall events | RenewsOnlyAt(events, user, r) && Monotone(events)
        ensures Successes(events, user, isVerify, start) <= AccountCap(isVerify)
      {
        CapHoldsWithoutRenewal(events, user, isVerify, start);
      }
    }
  }
}
