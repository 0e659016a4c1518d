/** What the login pipeline keeps over every run of logins. */
module LoginRuns {
  import opened LoginPipeline

  /** One login, or an administrator's change of the user table (bindings are only ever written by logins). */
  datatype Step = Login(env: Env, outcome: Outcome) | Edit(users: map<UserID, User>)

  function Next(st: Store, step: Step): Store {
    match step
    case Login(env, o) => Executed(st, env, o).0
    case Edit(users) => st.(users := users)
  }

  /** The store after a run. */
  function After(st: Store, run: seq<Step>): Store {
    if run == [] then st else Next(After(st, run[..|run| - 1]), run[|run| - 1])
  }

  /** What step i of a run, a login, was answered. */
  function Answer(st: Store, run: seq<Step>, i: nat): Result<Token, Error>
    requires i < |run| && run[i].Login?
  {
    Executed(After(st, run[..i]), run[i].env, run[i].outcome).1
  }

  predicate Federated(o: Outcome) {
    !NamesUser(o.providerType)
  }

  // ---------- one login against an arbitrary store ----------

  /** The provider verified the credential: it exists, is active, and has the credential's type. */
  predicate Trusted(env: Env, o: Outcome) {
    && o.providerID != 0
    && o.providerID in env.providers
    && (o.providerType == "" || env.providers[o.providerID].authType == o.providerType)
    && env.providers[o.providerID].state in {"", "active"}
  }

  lemma TrustedMeansChecked(env: Env, o: Outcome)
    ensures CheckedProvider(env, o).Ok? <==> Trusted(env, o)
    ensures Trusted(env, o) ==> CheckedProvider(env, o) == Ok(env.providers[o.providerID])
  {
  }

  /** A federated resolution stays inside the provider's account, and reaches a super_admin only by a stored binding. */
  lemma ResolvedInAccount(st: Store, env: Env, o: Outcome)
    requires Federated(o) && Resolved(st, env, o).1.Ok?
    ensures Trusted(env, o)
    ensures var (st', r) := Resolved(st, env, o);
      && r.value.user in st'.users
      && st'.users[r.value.user].account == env.providers[o.providerID].account
      && (st'.users[r.value.user].role == SuperAdmin ==>
        o.subject != "" && (o.providerID, o.subject) in st.bindings
        && st.bindings[(o.providerID, o.subject)] == r.value.user)
  {
    TrustedMeansChecked(env, o);
    var p := env.providers[o.providerID];
    assert Resolved(st, env, o) == ResolvedFederated(st, env, o, p);
  }

  /**
   * Whatever the store, a federated login is only ever answered with a token for a user of the trusted provider's
   * own account who is neither suspended nor waiting for consent; a super_admin gets one only through a binding
   * that was already there.
   */
  lemma TokensStayInTheAccount(st: Store, env: Env, o: Outcome)
    requires Executed(st, env, o).1.Ok?
    ensures var (st', t) := Executed(st, env, o);
      && t.value.user in st'.users
      && !st'.users[t.value.user].suspended
      && !st'.users[t.value.user].requiresConsent
      && (Federated(o) ==>
        && Trusted(env, o)
        && st'.users[t.value.user].account == env.providers[o.providerID].account
        && (st'.users[t.value.user].role == SuperAdmin ==>
          o.subject != "" && (o.providerID, o.subject) in st.bindings
          && st.bindings[(o.providerID, o.subject)] == t.value.user))
  {
    ResolvedIsStored(st, env, o);
    if Federated(o) {
      ResolvedInAccount(st, env, o);
    }
  }

  /** The account asks enrolled users for a second factor. */
  predicate AsksForMFA(policy: string) {
    policy == "optional" || policy == "required_admin" || policy == "required_all"
  }

  /** The account obliges the user to enroll. */
  predicate MustEnrollUnder(policy: string, user: User) {
    policy == "required_all" || (policy == "required_admin" && user.role == Admin)
  }

  lemma WhichGate(policy: string, user: User)
    ensures DecideGate(policy, user) == Pending <==> user.enrolled && AsksForMFA(policy)
    ensures DecideGate(policy, user) == MustEnroll <==> !user.enrolled && MustEnrollUnder(policy, user)
  {
  }

  /**
   * Which of the three tokens a successful login gets: a password-reset token exactly for a local login of a user who
   * must reset; otherwise an MFA token exactly for an enrolled user whose account asks for it, unless the credential
   * counts as two factors; and a session marked for enrollment exactly for a user obliged to enroll who has not.
   */
  lemma WhichToken(env: Env, o: Outcome, id: UserID, user: User)
    requires Issued(env, o, id, user).Ok?
    ensures var t, account := Issued(env, o, id, user).value, if user.account == 0 then 1 else user.account;
      var policy := if account in env.policies then env.policies[account] else "off";
      var twoFactor := o.providerType in {"passkey", "session_token"};
      var reset := user.requiresReset && o.providerType == "local";
      && t.user == id
      && (t.PendingPasswordReset? <==> reset)
      && (t.PendingMFA? <==> !reset && !twoFactor && user.enrolled && AsksForMFA(policy))
      && (t == Session(id, true) <==>
            !reset && o.providerType != "passkey" && !user.enrolled && MustEnrollUnder(policy, user))
  {
    hide DecideGate;
    WhichGate(Policy(env, user), user);
  }

  predicate UsersKept(st: Store, st': Store) {
    && (forall id :: id in st.users ==> id in st'.users && st'.users[id] == st.users[id])
    && (forall id :: id in st'.users && id !in st.users ==> st'.users[id].role == PlainUser)
  }

  predicate BindingsKept(st: Store, st': Store, o: Outcome) {
    && (forall k :: k in st.bindings ==> k in st'.bindings && st'.bindings[k] == st.bindings[k])
    && (forall k :: k in st'.bindings && k !in st.bindings ==>
      k == (o.providerID, o.subject) && st'.bindings[k] in st'.users && st'.users[st'.bindings[k]].role != SuperAdmin)
  }

  lemma StepsOnlyAdd(st: Store, env: Env, o: Outcome, p: Provider)
    ensures var r := ResolvedByLogin(st, env, o, p);
      r.Some? ==> UsersKept(st, r.value.0) && BindingsKept(st, r.value.0, o)
    ensures var r := ResolvedByEmail(st, env, o, p);
      r.Some? ==> UsersKept(st, r.value.0) && BindingsKept(st, r.value.0, o)
    ensures UsersKept(st, Provisioned(st, env, o, p).0) && BindingsKept(st, Provisioned(st, env, o, p).0, o)
  {
  }

  /** A login only adds: users keep their rows, bindings their users, and no new binding is a super_admin's. */
  lemma LoginsOnlyAdd(st: Store, env: Env, o: Outcome)
    ensures var st' := Executed(st, env, o).0;
      && (forall id :: id in st.users ==> id in st'.users && st'.users[id] == st.users[id])
      && (forall id :: id in st'.users && id !in st.users ==> st'.users[id].role == PlainUser)
      && (forall k :: k in st.bindings ==> k in st'.bindings && st'.bindings[k] == st.bindings[k])
      && (forall k :: k in st'.bindings && k !in st.bindings ==>
        k == (o.providerID, o.subject) && st'.bindings[k] in st'.users && st'.users[st'.bindings[k]].role != SuperAdmin)
  {
    hide ResolvedByLogin, ResolvedByEmail, Provisioned;
    if Federated(o) && Trusted(env, o) {
      StepsOnlyAdd(st, env, o, env.providers[o.providerID]);
    }
  }

  // ---------- runs: no super_admin through a provider ----------

  ghost predicate NoSuperAdminBound(st: Store) {
    forall k :: k in st.bindings && st.bindings[k] in st.users ==> st.users[st.bindings[k]].role != SuperAdmin
  }

  /** The edit makes nobody a super_admin who has a federated identity. */
  ghost predicate PromotesNobodyBound(st: Store, users: map<UserID, User>) {
    forall k :: k in st.bindings && st.bindings[k] in users && users[st.bindings[k]].role == SuperAdmin ==>
      st.bindings[k] in st.users && st.users[st.bindings[k]].role == SuperAdmin
  }

  ghost predicate Careful(st: Store, run: seq<Step>) {
    forall i :: 0 <= i < |run| && run[i].Edit? ==> PromotesNobodyBound(After(st, run[..i]), run[i].users)
  }

  lemma {:induction false} SuperAdminsStayUnbound(st: Store, run: seq<Step>)
    requires NoSuperAdminBound(st) && Careful(st, run)
    ensures NoSuperAdminBound(After(st, run))
  {
    if run != [] {
      var n := |run| - 1;
      assert forall i :: 0 <= i < n ==> run[..n][..i] == run[..i];
      SuperAdminsStayUnbound(st, run[..n]);
      if run[n].Login? {
        LoginsOnlyAdd(After(st, run[..n]), run[n].env, run[n].outcome);
      }
    }
  }

  /**
   * From a store where no super_admin has a federated identity, no federated login of any run ever gives a
   * super_admin a token, as long as no bound user is promoted along the way.
   */
  lemma NoFederatedSuperAdmin(st: Store, run: seq<Step>, i: nat)
    requires NoSuperAdminBound(st) && Careful(st, run)
    requires i < |run| && run[i].Login? && Federated(run[i].outcome) && Answer(st, run, i).Ok?
    ensures var after := After(st, run[..i + 1]);
      Answer(st, run, i).value.user in after.users && after.users[Answer(st, run, i).value.user].role != SuperAdmin
  {
    var before := After(st, run[..i]);
    assert forall j :: 0 <= j < i ==> run[..i][..j] == run[..j];
    SuperAdminsStayUnbound(st, run[..i]);
    assert run[..i + 1][..i] == run[..i];
    TokensStayInTheAccount(before, run[i].env, run[i].outcome);
    LoginsOnlyAdd(before, run[i].env, run[i].outcome);
  }

  // ---------- runs: one user per subject ----------

  lemma {:induction false} BindingsOnlyGrow(st: Store, run: seq<Step>, k: (ProviderID, string))
    requires k in st.bindings
    ensures k in After(st, run).bindings && After(st, run).bindings[k] == st.bindings[k]
  {
    if run != [] {
      var n := |run| - 1;
      BindingsOnlyGrow(st, run[..n], k);
      if run[n].Login? {
        LoginsOnlyAdd(After(st, run[..n]), run[n].env, run[n].outcome);
      }
    }
  }

  lemma {:induction false} RunsCompose(st: Store, first: seq<Step>, rest: seq<Step>)
    ensures After(After(st, first), rest) == After(st, first + rest)
  {
    if rest == [] {
      assert first + rest == first;
    } else {
      var n := |rest| - 1;
      RunsCompose(st, first, rest[..n]);
      assert (first + rest)[..|first + rest| - 1] == first + rest[..n];
    }
  }

  /** Resolving a subject leaves it bound to the user it was resolved to. */
  lemma ResolvingBinds(st: Store, env: Env, o: Outcome)
    requires Federated(o) && o.subject != "" && Resolved(st, env, o).1.Ok?
    ensures var (st', r) := Resolved(st, env, o);
      && (o.providerID, o.subject) in st'.bindings && st'.bindings[(o.providerID, o.subject)] == r.value.user
      && (r.value.isNew ==> (o.providerID, o.subject) !in st.bindings)
  {
    TrustedMeansChecked(env, o);
  }

  /** A bound subject resolves to its user or not at all. */
  lemma BoundResolvesToItsUser(st: Store, env: Env, o: Outcome)
    requires Federated(o) && o.subject != "" && (o.providerID, o.subject) in st.bindings
    ensures var r := Resolved(st, env, o).1;
      r.Ok? ==> r.value == Resolution(st.bindings[(o.providerID, o.subject)], false)
  {
    TrustedMeansChecked(env, o);
  }

  /**
   * When nothing fails, a bound subject signs in exactly when its user is stored in the provider's account and
   * passes the two gates. The role is not looked at: a user promoted to super_admin after being bound still gets in.
   */
  lemma BoundLoginIff(st: Store, env: Env, o: Outcome)
    requires Federated(o) && Trusted(env, o) && o.subject != "" && (o.providerID, o.subject) in st.bindings
    requires !env.findFails && !env.lookupFails && !env.tokenFails
    ensures var id := st.bindings[(o.providerID, o.subject)];
      Executed(st, env, o).1.Ok? <==>
        && id in st.users
        && st.users[id].account == env.providers[o.providerID].account
        && !st.users[id].suspended && !st.users[id].requiresConsent
    ensures Executed(st, env, o).1.Ok? ==> Executed(st, env, o).1.value.user == st.bindings[(o.providerID, o.subject)]
  {
    TrustedMeansChecked(env, o);
    BoundResolvesToItsUser(st, env, o);
    ResolvedIsStored(st, env, o);
  }

  /**
   * The pipeline refuses to bind a super_admin but never looks at the role of a user already bound: once an
   * administrator promotes one, the next federated login is answered with a super_admin's token.
   */
  lemma PromotedUserGetsIn(st: Store, env: Env, o: Outcome, promoted: User) returns (run: seq<Step>)
    requires NoSuperAdminBound(st) && Federated(o) && Trusted(env, o)
    requires o.subject != "" && (o.providerID, o.subject) in st.bindings
    requires promoted.role == SuperAdmin && promoted.account == env.providers[o.providerID].account
    requires !promoted.suspended && !promoted.requiresConsent
    requires !env.findFails && !env.lookupFails && !env.tokenFails
    ensures |run| == 2 && run[1] == Login(env, o) && Answer(st, run, 1).Ok?
    ensures var user := Answer(st, run, 1).value.user;
      user in After(st, run[..1]).users && After(st, run[..1]).users[user].role == SuperAdmin
  {
    var id := st.bindings[(o.providerID, o.subject)];
    run := [Edit(st.users[id := promoted]), Login(env, o)];
    assert run[..1][..0] == [] && run[..1][0] == run[0];
    assert After(st, run[..1]) == st.(users := st.users[id := promoted]);
    BoundLoginIff(After(st, run[..1]), env, o);
  }

  lemma AnswersTheResolved(st: Store, env: Env, o: Outcome)
    ensures Executed(st, env, o).0 == Resolved(st, env, o).0
    ensures Executed(st, env, o).1.Ok? ==>
      Resolved(st, env, o).1.Ok? && Executed(st, env, o).1.value.user == Resolved(st, env, o).1.value.user
  {
    hide Resolved;
    ResolvedIsStored(st, env, o);
  }

  /**
   * Two successful logins of a run with the same provider and subject are the same user's, whatever happened
   * between them, and the second provisioned nobody.
   */
  lemma OneUserPerSubject(st: Store, run: seq<Step>, i: nat, j: nat)
    requires i < j < |run| && run[i].Login? && run[j].Login?
    requires Federated(run[i].outcome) && Federated(run[j].outcome)
    requires run[i].outcome.providerID == run[j].outcome.providerID
    requires run[i].outcome.subject == run[j].outcome.subject != ""
    requires Answer(st, run, i).Ok? && Answer(st, run, j).Ok?
    ensures Answer(st, run, i).value.user == Answer(st, run, j).value.user
    ensures !Resolved(After(st, run[..j]), run[j].env, run[j].outcome).1.value.isNew
  {
    hide Executed, Resolved;
    var k := (run[i].outcome.providerID, run[i].outcome.subject);
    var before := After(st, run[..i]);
    AnswersTheResolved(before, run[i].env, run[i].outcome);
    AnswersTheResolved(After(st, run[..j]), run[j].env, run[j].outcome);
    ResolvingBinds(before, run[i].env, run[i].outcome);
    var bound := After(st, run[..i + 1]);
    assert run[..i + 1][..i] == run[..i];
    assert bound == Executed(before, run[i].env, run[i].outcome).0;
    BindingsOnlyGrow(bound, run[i + 1..j], k);
    RunsCompose(st, run[..i + 1], run[i + 1..j]);
    assert run[..i + 1] + run[i + 1..j] == run[..j];
    BoundResolvesToItsUser(After(st, run[..j]), run[j].env, run[j].outcome);
  }

  // ---------- a user nobody can sign in as ----------

  /** The login left a new user with no federated identity. */
  ghost predicate LeavesOrphan(st: Store, env: Env, o: Outcome) {
    var st' := Executed(st, env, o).0;
    exists id :: id in st'.users && id !in st.users && id !in st'.bindings.Values
  }

  /** Nobody matches the outcome, so the pipeline gets as far as creating a user. */
  predicate Provisions(st: Store, env: Env, o: Outcome) {
    && Federated(o)
    && Trusted(env, o)
    && var p := env.providers[o.providerID];
       && (o.subject == "" || (!env.lookupFails && (o.providerID, o.subject) !in st.bindings))
       && ResolvedByLogin(st, env, o, p) == None
       && ResolvedByEmail(st, env, o, p) == None
       && p.autoProvision && p.account != 0
       && !env.createFails && env.newID !in st.users
  }

  lemma ProvisionsMeansProvisioned(st: Store, env: Env, o: Outcome)
    ensures Provisions(st, env, o) ==>
      Executed(st, env, o).0 == Provisioned(st, env, o, env.providers[o.providerID]).0
    ensures !Provisions(st, env, o) ==> Executed(st, env, o).0.users == st.users
  {
    TrustedMeansChecked(env, o);
    if Federated(o) && Trusted(env, o) {
      var p := env.providers[o.providerID];
      assert Resolved(st, env, o) == ResolvedFederated(st, env, o, p);
    }
  }

  /**
   * Creating the user and binding the subject are two writes. The first is not undone when the second fails, and
   * the second fails exactly when the database refuses it or the subject is empty and already taken.
   */
  lemma OrphanIff(st: Store, env: Env, o: Outcome)
    requires env.newID !in st.bindings.Values
    ensures LeavesOrphan(st, env, o) <==>
      Provisions(st, env, o) && (env.bindFails || (o.subject == "" && (o.providerID, "") in st.bindings))
    ensures LeavesOrphan(st, env, o) ==> Executed(st, env, o).1 == Err(StoreError)
  {
    ProvisionsMeansProvisioned(st, env, o);
    if Provisions(st, env, o) {
      var p := env.providers[o.providerID];
      var st' := Executed(st, env, o).0;
      assert st'.users.Keys == st.users.Keys + {env.newID};
      if Bound(st.(users := st'.users), env, o, env.newID).Ok? {
        assert st'.bindings[(o.providerID, o.subject)] == env.newID;
        assert env.newID in st'.bindings.Values;
      } else {
        assert st'.bindings == st.bindings;
        assert env.newID in st'.users && env.newID !in st'.bindings.Values;
      }
    }
  }
}
