/** Whom a login resolves to, and what each refusal means, in terms of the stored rows alone. */
module LoginResolution {
  import opened LoginPipeline
  import opened LoginRuns

  /** An admin-created login of this provider and account names the user. */
  predicate LoginOf(env: Env, o: Outcome, account: AccountID, name: string, user: UserID) {
    && env.logins.Some? && account != 0 && name != ""
    && (o.providerID, account, name) in env.logins.value && env.logins.value[(o.providerID, account, name)] == user
  }

  /** The login that counts: the subject's, or without one that of the login_id attribute. */
  ghost predicate NamedByLogin(env: Env, o: Outcome, account: AccountID, user: UserID) {
    || LoginOf(env, o, account, o.subject, user)
    || ((forall u: UserID :: !LoginOf(env, o, account, o.subject, u)) && LoginOf(env, o, account, o.loginID, user))
  }

  /** A login counts only if its user is stored. */
  ghost predicate Named(st: Store, env: Env, o: Outcome, account: AccountID, user: UserID) {
    user in st.users && NamedByLogin(env, o, account, user)
  }

  /** The verified address is that of a stored user of the account. */
  predicate HasEmail(st: Store, env: Env, o: Outcome, account: AccountID, user: UserID) {
    && o.emailVerified && o.email != "" && account != 0
    && (o.email, account) in env.emails && env.emails[(o.email, account)] == user
    && user in st.users && st.users[user].account == account
  }

  /** The user is known by the verified address, and no login names anybody. */
  ghost predicate Known(st: Store, env: Env, o: Outcome, account: AccountID, user: UserID) {
    HasEmail(st, env, o, account, user) && forall u: UserID :: !Named(st, env, o, account, u)
  }

  ghost predicate Nobody(st: Store, env: Env, o: Outcome, account: AccountID) {
    forall u: UserID :: !Named(st, env, o, account, u) && !HasEmail(st, env, o, account, u)
  }

  /** No call fails, and the id of a new user is new. */
  predicate NothingFails(st: Store, env: Env) {
    !env.findFails && !env.lookupFails && !env.createFails && !env.bindFails && env.newID !in st.users
  }

  /**
   * Whom an unbound subject resolves to when nothing fails, and what is stored then. The user a login names comes
   * first, then the account's user with the verified address, then a new user. A named user must belong to the account;
   * neither a named nor a known user may be a super_admin; and the subject, also an empty one, must be free to be bound
   * unless it is empty and a login names the user.
   */
  lemma WhoIsResolved(st: Store, env: Env, o: Outcome)
    requires Federated(o) && Trusted(env, o) && NothingFails(st, env)
    requires o.subject == "" || (o.providerID, o.subject) !in st.bindings
    ensures var r, p, free := Resolved(st, env, o).1, env.providers[o.providerID],
                              (o.providerID, o.subject) !in st.bindings;
      && (forall u: UserID :: r == Ok(Resolution(u, false)) <==>
            || (Named(st, env, o, p.account, u) && st.users[u].account == p.account && st.users[u].role != SuperAdmin)
            || (Known(st, env, o, p.account, u) && st.users[u].role != SuperAdmin && free))
      && (forall u: UserID :: r == Ok(Resolution(u, true)) <==>
            Nobody(st, env, o, p.account) && p.autoProvision && p.account != 0 && free && u == env.newID)
      && (r.Ok? ==> Resolved(st, env, o).0 == Store(
            if r.value.isNew then st.users[env.newID := User(p.account, PlainUser, false, false, false, false)]
            else st.users,
            if o.subject == "" && (exists u: UserID :: Named(st, env, o, p.account, u)) then st.bindings
            else st.bindings[(o.providerID, o.subject) := r.value.user]))
  {
    TrustedMeansChecked(env, o);
    NamedIsFound(st, env, o, env.providers[o.providerID]);
  }

  /** A known or a new user, who cannot be resolved without a binding. */
  ghost predicate MustBind(st: Store, env: Env, o: Outcome, p: Provider) {
    || (exists u: UserID :: Known(st, env, o, p.account, u) && st.users[u].role != SuperAdmin)
    || (Nobody(st, env, o, p.account) && p.autoProvision && p.account != 0)
  }

  /** And why it is refused when it is. */
  lemma WhyNobodyIsResolved(st: Store, env: Env, o: Outcome)
    requires Federated(o) && Trusted(env, o) && NothingFails(st, env)
    requires o.subject == "" || (o.providerID, o.subject) !in st.bindings
    ensures var r, p, free := Resolved(st, env, o).1, env.providers[o.providerID],
                              (o.providerID, o.subject) !in st.bindings;
      && (r == Err(CrossTenantIdentity) <==>
            exists u: UserID :: Named(st, env, o, p.account, u) && st.users[u].account != p.account)
      && (r == Err(PrivilegedAutoLink) <==>
            exists u: UserID :: u in st.users && st.users[u].role == SuperAdmin && (
              || Known(st, env, o, p.account, u)
              || (Named(st, env, o, p.account, u) && st.users[u].account == p.account)))
      && (r == Err(ProvisioningDisabled) <==> Nobody(st, env, o, p.account) && !p.autoProvision)
      && (r == Err(ProviderWithoutAccount) <==> Nobody(st, env, o, p.account) && p.autoProvision && p.account == 0)
      && (r == Err(StoreError) <==> !free && MustBind(st, env, o, p))
  {
    TrustedMeansChecked(env, o);
    NamedIsFound(st, env, o, env.providers[o.providerID]);
  }

  lemma NamedIsFound(st: Store, env: Env, o: Outcome, p: Provider)
    ensures forall u: UserID :: Named(st, env, o, p.account, u) <==> FoundLogin(env, o, p) == Some(u) && u in st.users
  {
    var logins, account := env.logins, p.account;
    if logins.Some? && (o.providerID, account, o.subject) in logins.value && account != 0 && o.subject != "" {
      assert LoginOf(env, o, account, o.subject, logins.value[(o.providerID, account, o.subject)]);
    }
  }

  /** A bound subject that resolves to nobody: its user is gone, or belongs to another account by now. */
  lemma BoundIsRefusedIff(st: Store, env: Env, o: Outcome)
    requires Federated(o) && Trusted(env, o) && NothingFails(st, env)
    requires o.subject != "" && (o.providerID, o.subject) in st.bindings
    ensures var r, id, account :=
        Resolved(st, env, o).1, st.bindings[(o.providerID, o.subject)], env.providers[o.providerID].account;
      && (r == Err(UserNotFound) <==> id !in st.users)
      && (r == Err(CrossTenantIdentity) <==> id in st.users && st.users[id].account != account)
      && (r.Ok? <==> id in st.users && st.users[id].account == account)
  {
    TrustedMeansChecked(env, o);
  }

  /** A credential that names the user resolves to that user, if stored, and touches nothing. */
  lemma NamedUserIsResolved(st: Store, env: Env, o: Outcome)
    requires o.providerType in {"local", "passkey", "session_token"} && !env.findFails
    ensures Resolved(st, env, o).0 == st
    ensures var r := Resolved(st, env, o).1;
      && (r == Err(MissingUserID) <==> o.userID.None? || o.userID.value == 0)
      && (r == Err(UserNotFound) <==> o.userID.Some? && o.userID.value != 0 && o.userID.value !in st.users)
      && (r.Ok? ==> o.userID == Some(r.value.user) && !r.value.isNew)
      && (r.Ok? <==> o.userID.Some? && o.userID.value != 0 && o.userID.value in st.users)
  {
  }

  /** Why a provider is not trusted; nothing is looked up or stored then. */
  lemma UntrustedIsRefused(st: Store, env: Env, o: Outcome)
    requires o.providerType !in {"local", "passkey", "session_token"} && !Trusted(env, o)
    ensures Resolved(st, env, o) == (st, Err(
      if o.providerID == 0 then NoProviderContext
      else if o.providerID !in env.providers then ProviderNotFound else ProviderMismatch))
  {
    TrustedMeansChecked(env, o);
  }

  /** A resolved user gets a token unless suspended, waiting for consent, or unlucky; a refusal is passed on. */
  lemma TokenIff(st: Store, env: Env, o: Outcome)
    ensures Executed(st, env, o).0 == Resolved(st, env, o).0
    ensures var (st', r), answer := Resolved(st, env, o), Executed(st, env, o).1;
      if r.Err? then answer == Err(r.error)
      else
        && r.value.user in st'.users
        && var user := st'.users[r.value.user];
        && (answer == Err(AccountSuspended) <==> user.suspended)
        && (answer == Err(ParentalConsentRequired) <==> !user.suspended && user.requiresConsent)
        && (answer == Err(TokenError) <==> !user.suspended && !user.requiresConsent && env.tokenFails)
        && (answer.Ok? <==> !user.suspended && !user.requiresConsent && !env.tokenFails)
        && (answer.Ok? ==> answer.value.user == r.value.user)
  {
    hide Resolved;
    ResolvedIsStored(st, env, o);
  }
}
