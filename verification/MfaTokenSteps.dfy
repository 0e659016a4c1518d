/**
 * The per-token attempt check and the token half of the sweeper (internal/auth/mfa_rate_limit.go), cut into their
 * separate atomic steps: the sync.Map operation that loads or stores a record, the increment under the record's own
 * lock, and the sweeper's test and delete of one key, which may act on a record that was replaced in between. Every
 * step keeps the invariant that the records of a valid token count its successes and are at most one more than its
 * resets.
 */
module MfaTokenSteps {
  import opened MfaRateLimit

  /** pendingTTL (internal/auth/mfa_pending.go:30) */
  const PENDING_TTL: int := 5 * MINUTE

  type Thread = nat

  /** A record object; the store refers to it by its index in records, and threads keep such references. */
  datatype Record = Record(token: Token, verify: nat, recovery: nat, createdAt: int)

  /** Where a check stands: it has built its fresh record, or it has loaded the record to lock. */
  datatype Check =
    | Stamped(token: Token, isVerify: bool, createdAt: int)
    | Loaded(rec: nat, isVerify: bool)

  /** Where the sweeper stands: it reads its cutoff once, then tests and deletes keys one at a time. */
  datatype Sweeper = Idle | Sweeping(cutoff: int) | Deleting(cutoff: int, token: Token)

  datatype Success = Success(token: Token, isVerify: bool, at: int)

  datatype State = State(
    clock: int,
    issued: map<Token, int>,
    records: seq<Record>,
    store: map<Token, nat>,
    checks: map<Thread, Check>,
    sweeper: Sweeper,
    log: seq<Success>)

  datatype Action =
    | Tick(d: nat)
    | Issue(token: Token)
    | Begin(thread: Thread, token: Token, isVerify: bool)
    | LoadOrStore(thread: Thread)
    | LockedIncrement(thread: Thread)
    | SweepStart
    | SweepTest(token: Token)
    | SweepDelete
    | SweepEnd
    | Reset(token: Token)

  // ---------- the steps ----------

  function BeginStep(s: State, thread: Thread, token: Token, isVerify: bool): State {
    if thread !in s.checks && token in s.issued
    then s.(checks := s.checks[thread := Stamped(token, isVerify, s.clock)]) else s
  }

  function LoadStep(s: State, thread: Thread): State {
    if thread !in s.checks || !s.checks[thread].Stamped? then s
    else
      var c := s.checks[thread];
      if c.token in s.store then s.(checks := s.checks[thread := Loaded(s.store[c.token], c.isVerify)])
      else s.(records := s.records + [Record(c.token, 0, 0, c.createdAt)],
              store := s.store[c.token := |s.records|],
              checks := s.checks[thread := Loaded(|s.records|, c.isVerify)])
  }

  function Used(r: Record, isVerify: bool): nat {
    if isVerify then r.verify else r.recovery
  }

  function Incremented(r: Record, isVerify: bool): Record {
    if isVerify then r.(verify := r.verify + 1) else r.(recovery := r.recovery + 1)
  }

  function IncrementStep(s: State, thread: Thread): State {
    if thread !in s.checks || !s.checks[thread].Loaded? || s.checks[thread].rec >= |s.records| then s
    else
      var i, isVerify := s.checks[thread].rec, s.checks[thread].isVerify;
      var r := s.records[i];
      if Used(r, isVerify) >= TokenCap(isVerify) then s.(checks := s.checks - {thread})
      else s.(records := s.records[i := Incremented(r, isVerify)],
              checks := s.checks - {thread},
              log := s.log + [Success(r.token, isVerify, s.clock)])
  }

  function SweepTestStep(s: State, token: Token): State {
    if s.sweeper.Sweeping? && token in s.store && s.store[token] < |s.records|
       && s.records[s.store[token]].createdAt < s.sweeper.cutoff
    then s.(sweeper := Deleting(s.sweeper.cutoff, token)) else s
  }

  function Step(s: State, a: Action): State {
    match a
    case Tick(d) => s.(clock := s.clock + d)
    case Issue(token) => if token in s.issued then s else s.(issued := s.issued[token := s.clock])
    case Begin(thread, token, isVerify) => BeginStep(s, thread, token, isVerify)
    case LoadOrStore(thread) => LoadStep(s, thread)
    case LockedIncrement(thread) => IncrementStep(s, thread)
    case SweepStart => if s.sweeper.Idle? then s.(sweeper := Sweeping(s.clock - RECORD_AGE)) else s
    case SweepTest(token) => SweepTestStep(s, token)
    case SweepDelete =>
      if s.sweeper.Deleting?
      then s.(store := s.store - {s.sweeper.token}, sweeper := Sweeping(s.sweeper.cutoff)) else s
    case SweepEnd => if s.sweeper.Sweeping? then s.(sweeper := Idle) else s
    case Reset(token) => s.(store := s.store - {token})
  }

  // ---------- successes while a token is valid ----------

  ghost predicate Counts(e: Success, token: Token, isVerify: bool, deadline: int) {
    e.token == token && e.isVerify == isVerify && e.at <= deadline
  }

  ghost function Successes(log: seq<Success>, token: Token, isVerify: bool, deadline: int): nat {
    if log == [] then 0
    else Successes(log[..|log| - 1], token, isVerify, deadline) +
         (if Counts(log[|log| - 1], token, isVerify, deadline) then 1 else 0)
  }

  lemma SuccessesMore(log: seq<Success>, e: Success, token: Token, isVerify: bool, deadline: int)
    ensures Successes(log + [e], token, isVerify, deadline)
         == Successes(log, token, isVerify, deadline) + (if Counts(e, token, isVerify, deadline) then 1 else 0)
  {
    assert (log + [e])[..|log|] == log;
  }

  // ---------- the invariant ----------

  /** References are good, and nothing about a token is older than the token. */
  ghost predicate WellFormed(s: State) {
    && (forall t :: t in s.store ==> s.store[t] < |s.records| && s.records[s.store[t]].token == t)
    && (forall c :: c in s.checks && s.checks[c].Loaded? ==> s.checks[c].rec < |s.records|)
    && (forall c :: c in s.checks && s.checks[c].Stamped? ==>
         s.checks[c].token in s.issued && s.issued[s.checks[c].token] <= s.checks[c].createdAt <= s.clock)
    && (forall i :: 0 <= i < |s.records| ==>
         s.records[i].token in s.issued && s.issued[s.records[i].token] <= s.records[i].createdAt)
    && (forall t :: t in s.issued ==> s.issued[t] <= s.clock)
    && (s.sweeper.Sweeping? || s.sweeper.Deleting? ==> s.sweeper.cutoff <= s.clock - RECORD_AGE)
    && (s.sweeper.Deleting? ==> s.sweeper.token in s.issued && s.issued[s.sweeper.token] < s.sweeper.cutoff)
  }

  /** The records made for a token. */
  ghost function RecordsOf(records: seq<Record>, token: Token): nat {
    if records == [] then 0
    else RecordsOf(records[..|records| - 1], token) + (if records[|records| - 1].token == token then 1 else 0)
  }

  /** The attempts they have counted. */
  ghost function TotalUsed(records: seq<Record>, token: Token, isVerify: bool): nat {
    if records == [] then 0
    else
      var r := records[|records| - 1];
      TotalUsed(records[..|records| - 1], token, isVerify) + (if r.token == token then Used(r, isVerify) else 0)
  }

  lemma OneRecordMore(records: seq<Record>, r: Record, token: Token, isVerify: bool)
    ensures RecordsOf(records + [r], token) == RecordsOf(records, token) + (if r.token == token then 1 else 0)
    ensures TotalUsed(records + [r], token, isVerify)
         == TotalUsed(records, token, isVerify) + (if r.token == token then Used(r, isVerify) else 0)
  {
    assert (records + [r])[..|records|] == records;
  }

  lemma {:induction false} OneAttemptMore(
    records: seq<Record>, i: nat, kind: bool, token: Token, isVerify: bool)
    requires i < |records|
    ensures var records' := records[i := Incremented(records[i], kind)];
      && RecordsOf(records', token) == RecordsOf(records, token)
      && TotalUsed(records', token, isVerify)
         == TotalUsed(records, token, isVerify) + (if records[i].token == token && kind == isVerify then 1 else 0)
  {
    var n, r := |records| - 1, Incremented(records[i], kind);
    if i < n {
      OneAttemptMore(records[..n], i, kind, token, isVerify);
      assert records[i := r][..n] == records[..n][i := r];
    } else {
      assert records[i := r][..n] == records[..n];
    }
  }

  lemma {:induction false} TotalIsCapped(records: seq<Record>, token: Token, isVerify: bool)
    requires forall i :: 0 <= i < |records| ==> Used(records[i], isVerify) <= TokenCap(isVerify)
    ensures TotalUsed(records, token, isVerify) <= TokenCap(isVerify) * RecordsOf(records, token)
  {
    if records != [] {
      TotalIsCapped(records[..|records| - 1], token, isVerify);
    }
  }

  lemma {:induction false} NoneOfToken(records: seq<Record>, token: Token, isVerify: bool)
    requires forall i :: 0 <= i < |records| ==> records[i].token != token
    ensures RecordsOf(records, token) == TotalUsed(records, token, isVerify) == 0
  {
    if records != [] {
      NoneOfToken(records[..|records| - 1], token, isVerify);
    }
  }

  /**
   * After k resets of the token: while it is valid its records, at most one more than the resets, count its
   * successes, and only the one in the store can be made anew.
   */
  ghost predicate Counted(s: State, token: Token, isVerify: bool, k: nat)
    requires token in s.issued
  {
    && Successes(s.log, token, isVerify, s.issued[token] + PENDING_TTL) == TotalUsed(s.records, token, isVerify)
    && RecordsOf(s.records, token) <= k + (if token in s.store then 1 else 0)
  }

  /** What k resets of a token allow while it is valid. */
  function Budget(isVerify: bool, k: nat): nat {
    (if isVerify then 5 else 3) * (k + 1)
  }

  ghost predicate Capped(s: State, token: Token, isVerify: bool, k: nat) {
    && (forall i :: 0 <= i < |s.records| ==> Used(s.records[i], isVerify) <= TokenCap(isVerify))
    && if token in s.issued then
         && Successes(s.log, token, isVerify, s.issued[token] + PENDING_TTL) <= Budget(isVerify, k)
         && (s.clock <= s.issued[token] + PENDING_TTL ==> Counted(s, token, isVerify, k))
       else
         forall deadline :: Successes(s.log, token, isVerify, deadline) == 0
  }

  lemma LoadKeepsWellFormed(s: State, thread: Thread)
    requires WellFormed(s)
    ensures WellFormed(LoadStep(s, thread))
  {
  }

  lemma IncrementKeepsWellFormed(s: State, thread: Thread)
    requires WellFormed(s)
    ensures WellFormed(IncrementStep(s, thread))
  {
  }

  lemma StepKeepsWellFormed(s: State, a: Action)
    requires WellFormed(s)
    ensures WellFormed(Step(s, a))
  {
    hide LoadStep, IncrementStep;
    match a
    case LoadOrStore(thread) => LoadKeepsWellFormed(s, thread);
    case LockedIncrement(thread) => IncrementKeepsWellFormed(s, thread);
    case _ =>
  }

  lemma LoadKeepsCap(s: State, thread: Thread, token: Token, isVerify: bool, k: nat)
    requires WellFormed(s) && Capped(s, token, isVerify, k)
    ensures Capped(LoadStep(s, thread), token, isVerify, k)
  {
    hide Successes, TotalUsed, RecordsOf, Budget, TokenCap;
    var s' := LoadStep(s, thread);
    if s'.records != s.records {
      OneRecordMore(s.records, s'.records[|s.records|], token, isVerify);
    }
  }

  /** While the token is valid its few records bound what they count. */
  lemma CountedIsCapped(records: seq<Record>, inStore: bool, token: Token, isVerify: bool, k: nat)
    requires forall i :: 0 <= i < |records| ==> Used(records[i], isVerify) <= TokenCap(isVerify)
    requires RecordsOf(records, token) <= k + (if inStore then 1 else 0)
    ensures TotalUsed(records, token, isVerify) <= Budget(isVerify, k)
  {
    var cap, n := TokenCap(isVerify), RecordsOf(records, token);
    TotalIsCapped(records, token, isVerify);
    assert cap * n <= cap * (k + 1);
  }

  lemma IncrementKeepsCap(s: State, thread: Thread, token: Token, isVerify: bool, k: nat)
    requires WellFormed(s) && Capped(s, token, isVerify, k)
    ensures Capped(IncrementStep(s, thread), token, isVerify, k)
  {
    hide Successes, TotalUsed, RecordsOf, Budget, TokenCap;
    var s' := IncrementStep(s, thread);
    if s'.log != s.log {
      var e, i := s'.log[|s.log|], s.checks[thread].rec;
      assert s'.log == s.log + [e];
      forall deadline
        ensures Successes(s'.log, token, isVerify, deadline)
             == Successes(s.log, token, isVerify, deadline) + (if Counts(e, token, isVerify, deadline) then 1 else 0)
      {
        SuccessesMore(s.log, e, token, isVerify, deadline);
      }
      OneAttemptMore(s.records, i, s.checks[thread].isVerify, token, isVerify);
      if token in s.issued && s.clock <= s.issued[token] + PENDING_TTL {
        CountedIsCapped(s'.records, token in s.store, token, isVerify, k);
      }
    }
  }

  /** A deletion in progress concerns a token that has expired. */
  lemma DeleteKeepsCap(s: State, token: Token, isVerify: bool, k: nat)
    requires WellFormed(s) && Capped(s, token, isVerify, k)
    ensures Capped(Step(s, SweepDelete), token, isVerify, k)
  {
  }

  lemma BeginKeepsCap(s: State, thread: Thread, t: Token, verify: bool, token: Token, isVerify: bool, k: nat)
    requires WellFormed(s) && Capped(s, token, isVerify, k)
    ensures Capped(BeginStep(s, thread, t, verify), token, isVerify, k)
  {
  }

  lemma SweepTestKeepsCap(s: State, t: Token, token: Token, isVerify: bool, k: nat)
    requires WellFormed(s) && Capped(s, token, isVerify, k)
    ensures Capped(SweepTestStep(s, t), token, isVerify, k)
  {
  }

  lemma IssueKeepsCap(s: State, t: Token, token: Token, isVerify: bool, k: nat)
    requires WellFormed(s) && Capped(s, token, isVerify, k)
    ensures Capped(Step(s, Issue(t)), token, isVerify, k)
  {
    if token !in s.issued {
      NoneOfToken(s.records, token, isVerify);
    }
  }

  lemma ResetKeepsCap(s: State, t: Token, token: Token, isVerify: bool, k: nat)
    requires Capped(s, token, isVerify, k)
    ensures Capped(Step(s, Action.Reset(t)), token, isVerify, if t == token then k + 1 else k)
  {
    assert Budget(isVerify, k) <= Budget(isVerify, k + 1);
  }

  lemma StepKeepsCap(s: State, a: Action, token: Token, isVerify: bool, k: nat)
    requires WellFormed(s) && Capped(s, token, isVerify, k)
    ensures Capped(Step(s, a), token, isVerify, if a == Action.Reset(token) then k + 1 else k)
  {
    hide LoadStep, IncrementStep, BeginStep, SweepTestStep;
    match a
    case Begin(thread, t, verify) => BeginKeepsCap(s, thread, t, verify, token, isVerify, k);
    case SweepTest(t) => SweepTestKeepsCap(s, t, token, isVerify, k);
    case LoadOrStore(thread) => LoadKeepsCap(s, thread, token, isVerify, k);
    case LockedIncrement(thread) => IncrementKeepsCap(s, thread, token, isVerify, k);
    case SweepDelete => DeleteKeepsCap(s, token, isVerify, k);
    case Issue(t) => IssueKeepsCap(s, t, token, isVerify, k);
    case Reset(t) => ResetKeepsCap(s, t, token, isVerify, k);
    case _ =>
  }
}
