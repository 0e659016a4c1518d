/** The per-token attempt cap over every interleaving of checks, sweeps and resets. */
module MfaTokenRace {
  import MfaRateLimit
  import opened MfaTokenSteps

  type Token = MfaRateLimit.Token

  // ---------- runs ----------

  ghost function Run(clock: int, actions: seq<Action>): State {
    if actions == [] then State(clock, map[], [], map[], map[], Idle, [])
    else Step(Run(clock, actions[..|actions| - 1]), actions[|actions| - 1])
  }

  lemma {:induction false} RunIsWellFormed(clock: int, actions: seq<Action>)
    ensures WellFormed(Run(clock, actions))
  {
    if actions != [] {
      RunIsWellFormed(clock, actions[..|actions| - 1]);
      StepKeepsWellFormed(Run(clock, actions[..|actions| - 1]), actions[|actions| - 1]);
    }
  }

  ghost function Resets(actions: seq<Action>, token: Token): nat {
    if actions == [] then 0
    else
      Resets(actions[..|actions| - 1], token) + (if actions[|actions| - 1] == Action.Reset(token) then 1 else 0)
  }

  lemma {:induction false} RunIsCapped(clock: int, actions: seq<Action>, token: Token, isVerify: bool)
    ensures Capped(Run(clock, actions), token, isVerify, Resets(actions, token))
  {
    if actions != [] {
      var before, a := actions[..|actions| - 1], actions[|actions| - 1];
      RunIsCapped(clock, before, token, isVerify);
      RunIsWellFormed(clock, before);
      StepKeepsCap(Run(clock, before), a, token, isVerify, Resets(before, token));
    }
  }

  /**
   * The cap, for every interleaving of checks, sweeps and resets: at most 5 verify and 3 recovery checks succeed on a
   * pending token while it is valid, and as many again for each reset of the token.
   */
  lemma AtMostCapWhileValid(clock: int, actions: seq<Action>, token: Token, isVerify: bool)
    requires token in Run(clock, actions).issued
    ensures var s := Run(clock, actions);
      Successes(s.log, token, isVerify, s.issued[token] + 5 * 60_000_000_000)
        <= (if isVerify then 5 else 3) * (Resets(actions, token) + 1)
  {
    RunIsCapped(clock, actions, token, isVerify);
  }

  // ---------- a check that nothing interrupts ----------

  /** The map of the tracker that a state stands for. */
  ghost function Stored(s: State): map<Token, MfaRateLimit.AttemptRecord>
    requires WellFormed(s)
  {
    map t | t in s.store ::
      var r := s.records[s.store[t]]; MfaRateLimit.AttemptRecord(r.verify, r.recovery, r.createdAt)
  }

  lemma LoadStores(s: State, thread: Thread)
    requires WellFormed(s) && thread in s.checks && s.checks[thread].Stamped?
    ensures var s', c := LoadStep(s, thread), s.checks[thread];
      && WellFormed(s') && s'.log == s.log && s'.clock == s.clock
      && Stored(s') == Stored(s)[c.token := MfaRateLimit.LoadedToken(Stored(s), c.token, c.createdAt)]
      && c.token in s'.store && s'.checks == s.checks[thread := Loaded(s'.store[c.token], c.isVerify)]
  {
    LoadKeepsWellFormed(s, thread);
  }

  lemma IncrementStores(s: State, thread: Thread, token: Token, isVerify: bool)
    requires WellFormed(s) && token in s.store && thread in s.checks
    requires s.checks[thread] == Loaded(s.store[token], isVerify)
    ensures var s', rec := IncrementStep(s, thread), Stored(s)[token];
      var ok := MfaRateLimit.TokenCount(rec, isVerify) < MfaRateLimit.TokenCap(isVerify);
      && WellFormed(s') && s'.checks == s.checks - {thread}
      && s'.log == s.log + (if ok then [Success(token, isVerify, s.clock)] else [])
      && Stored(s') == Stored(s)[token := if !ok then rec else if isVerify then rec.(verify := rec.verify + 1)
                                          else rec.(recovery := rec.recovery + 1)]
  {
    IncrementKeepsWellFormed(s, thread);
  }

  /** The three steps of a check, run without interruption, do what the tracker's check does. */
  lemma UninterruptedCheckIsAtomic(s: State, thread: Thread, token: Token, isVerify: bool)
    requires WellFormed(s) && thread !in s.checks && token in s.issued
    ensures var s' := IncrementStep(LoadStep(BeginStep(s, thread, token, isVerify), thread), thread);
      var ok := MfaRateLimit.TokenAllows(Stored(s), token, isVerify, s.clock);
      && WellFormed(s') && Stored(s') == MfaRateLimit.TokenChecked(Stored(s), token, isVerify, s.clock)
      && s'.log == s.log + (if ok then [Success(token, isVerify, s.clock)] else []) && s'.checks == s.checks
  {
    hide IncrementStep, LoadStep, BeginStep, WellFormed, Stored;
    var begun := BeginStep(s, thread, token, isVerify);
    var loaded := LoadStep(begun, thread);
    BeginStores(s, thread, token, isVerify);
    LoadStores(begun, thread);
    IncrementStores(loaded, thread, token, isVerify);
    Overwrite(Stored(s), token, Stored(loaded)[token], Stored(IncrementStep(loaded, thread))[token]);
    Overwrite(s.checks, thread, begun.checks[thread], loaded.checks[thread]);
  }

  lemma BeginStores(s: State, thread: Thread, token: Token, isVerify: bool)
    requires WellFormed(s) && thread !in s.checks && token in s.issued
    ensures var s' := BeginStep(s, thread, token, isVerify);
      && WellFormed(s') && Stored(s') == Stored(s) && s'.log == s.log && s'.clock == s.clock
      && s'.checks == s.checks[thread := Stamped(token, isVerify, s.clock)]
  {
    StepKeepsWellFormed(s, Begin(thread, token, isVerify));
  }

  lemma Overwrite<K, V>(m: map<K, V>, k: K, v: V, w: V)
    ensures m[k := v][k := w] == m[k := w] && (k !in m ==> m[k := w] - {k} == m)
  {
  }

  // ---------- every reset counts ----------

  function AttemptActions(token: Token): seq<Action> {
    [Begin(0, token, true), LoadOrStore(0), LockedIncrement(0)]
  }

  function Attempted(s: State, token: Token): State {
    IncrementStep(LoadStep(BeginStep(s, 0, token, true), 0), 0)
  }

  lemma AttemptInRun(clock: int, actions: seq<Action>, token: Token)
    ensures Run(clock, actions + AttemptActions(token)) == Attempted(Run(clock, actions), token)
  {
    var one := actions + [Begin(0, token, true)];
    var two := one + [LoadOrStore(0)];
    var three := two + [LockedIncrement(0)];
    assert one[..|one| - 1] == actions && two[..|two| - 1] == one && three[..|three| - 1] == two;
    assert three == actions + AttemptActions(token);
    assert Run(clock, one) == BeginStep(Run(clock, actions), 0, token, true);
    assert Run(clock, two) == LoadStep(Run(clock, one), 0);
  }

  /** The token was just issued, no check of thread 0 is under way, and its record has used verify attempts. */
  ghost predicate Ready(s: State, token: Token, used: nat) {
    && token in s.issued && s.clock == s.issued[token] && 0 !in s.checks
    && (used == 0 ==> token !in s.store)
    && (used > 0 ==> (
         && token in s.store && s.store[token] < |s.records|
         && s.records[s.store[token]].token == token && s.records[s.store[token]].verify == used))
  }

  lemma AttemptSucceeds(s: State, token: Token, used: nat)
    requires Ready(s, token, used) && used < MfaRateLimit.MAX_VERIFY
    ensures Ready(Attempted(s, token), token, used + 1) && Attempted(s, token).issued == s.issued
    ensures var deadline := s.issued[token] + PENDING_TTL;
      Successes(Attempted(s, token).log, token, true, deadline) == Successes(s.log, token, true, deadline) + 1
  {
    SuccessesMore(s.log, Success(token, true, s.clock), token, true, s.issued[token] + PENDING_TTL);
  }

  lemma ResetsAppend(actions: seq<Action>, a: Action, token: Token)
    ensures Resets(actions + [a], token) == Resets(actions, token) + (if a == Action.Reset(token) then 1 else 0)
  {
    assert (actions + [a])[..|actions|] == actions;
  }

  lemma AttemptIsNoReset(actions: seq<Action>, token: Token)
    ensures Resets(actions + AttemptActions(token), token) == Resets(actions, token)
  {
    var one := actions + [Begin(0, token, true)];
    var two := one + [LoadOrStore(0)];
    ResetsAppend(actions, Begin(0, token, true), token);
    ResetsAppend(one, LoadOrStore(0), token);
    ResetsAppend(two, LockedIncrement(0), token);
    assert two + [LockedIncrement(0)] == actions + AttemptActions(token);
  }

  lemma {:induction false} AttemptsSucceed(clock: int, actions: seq<Action>, token: Token, n: nat)
    returns (more: seq<Action>)
    requires Ready(Run(clock, actions), token, 0) && n <= MfaRateLimit.MAX_VERIFY
    ensures Ready(Run(clock, more), token, n) && Run(clock, more).issued == Run(clock, actions).issued
    ensures Resets(more, token) == Resets(actions, token)
    ensures var deadline := Run(clock, actions).issued[token] + PENDING_TTL;
      Successes(Run(clock, more).log, token, true, deadline)
        == Successes(Run(clock, actions).log, token, true, deadline) + n
  {
    hide Run, Successes, Resets, Attempted, Step;
    more := actions;
    if n > 0 {
      more := AttemptsSucceed(clock, actions, token, n - 1);
      AttemptSucceeds(Run(clock, more), token, n - 1);
      AttemptInRun(clock, more, token);
      AttemptIsNoReset(more, token);
      more := more + AttemptActions(token);
    }
  }

  lemma RunAppend(clock: int, actions: seq<Action>, a: Action)
    ensures Run(clock, actions + [a]) == Step(Run(clock, actions), a)
  {
    assert (actions + [a])[..|actions|] == actions;
  }

  lemma ResetMakesReady(s: State, token: Token)
    requires Ready(s, token, MfaRateLimit.MAX_VERIFY)
    ensures var s' := Step(s, Action.Reset(token));
      Ready(s', token, 0) && s'.issued == s.issued && s'.log == s.log
  {
  }

  lemma IssuedIsReady(token: Token)
    ensures var s := Run(0, [Issue(token)]);
      Ready(s, token, 0) && Successes(s.log, token, true, s.issued[token] + PENDING_TTL) == 0
    ensures Resets([Issue(token)], token) == 0
  {
    var start := [Issue(token)];
    assert start[..0] == [];
  }

  /** The bound is exact for every number of resets: each hands out a fresh budget on a token that is still valid. */
  lemma {:induction false} ResetsLiftTheCap(token: Token, resets: nat) returns (actions: seq<Action>)
    ensures Resets(actions, token) == resets && Ready(Run(0, actions), token, MfaRateLimit.MAX_VERIFY)
    ensures var s := Run(0, actions);
      Successes(s.log, token, true, s.issued[token] + 5 * 60_000_000_000) == 5 * (resets + 1)
  {
    hide Ready, Run, Step, Successes, Resets;
    if resets == 0 {
      IssuedIsReady(token);
      actions := AttemptsSucceed(0, [Issue(token)], token, MfaRateLimit.MAX_VERIFY);
    } else {
      var full := ResetsLiftTheCap(token, resets - 1);
      ResetsAppend(full, Action.Reset(token), token);
      RunAppend(0, full, Action.Reset(token));
      ResetMakesReady(Run(0, full), token);
      actions := AttemptsSucceed(0, full + [Action.Reset(token)], token, MfaRateLimit.MAX_VERIFY);
    }
  }
}
