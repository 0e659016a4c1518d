/**
 * Post-credential login: internal/auth/login_pipeline.go and login_pipeline_logins.go over abstract stores.
 * Users and bindings are the state; everything else a call finds around it, including which of its calls fail, is an
 * argument. Each method of the class is proved against a function from the old store to the new store and the answer.
 */
module LoginPipeline {

  datatype Option<+T> = None | Some(value: T)

  datatype Result<+T, +E> = Ok(value: T) | Err(error: E)

  type UserID = nat
  type ProviderID = nat
  type AccountID = nat

  datatype Role = SuperAdmin | Admin | PlainUser | OtherRole(name: string)

  datatype User = User(
    account: AccountID, role: Role, suspended: bool, requiresConsent: bool, requiresReset: bool, enrolled: bool)

  datatype Provider = Provider(account: AccountID, authType: string, state: string, autoProvision: bool)

  /** SSOOutcome. userID: what Sscanf("%d") reads from the subject; loginID: the login_id attribute, "" when absent. */
  datatype Outcome = Outcome(
    providerID: ProviderID, providerType: string, subject: string, userID: Option<UserID>,
    email: string, emailVerified: bool, loginID: string)

  /** The rows the pipeline writes: users, and federated identities with their unique (provider, subject). */
  datatype Store = Store(users: map<UserID, User>, bindings: map<(ProviderID, string), UserID>)

  /**
   * What one call finds around it: configuration and admin-created logins, which others may change at any time,
   * and the outcomes of calls that can fail.
   */
  datatype Env = Env(
    providers: map<ProviderID, Provider>,
    logins: Option<map<(ProviderID, AccountID, string), UserID>>,
    emails: map<(string, AccountID), UserID>,
    policies: map<AccountID, string>,
    newID: UserID,
    findFails: bool, lookupFails: bool, createFails: bool, bindFails: bool, tokenFails: bool)

  datatype Error =
    | MissingUserID | UserNotFound | NoProviderContext | ProviderNotFound | ProviderMismatch
    | CrossTenantIdentity | PrivilegedAutoLink | ProvisioningDisabled | ProviderWithoutAccount
    | StoreError | AccountSuspended | ParentalConsentRequired | TokenError

  datatype Token =
    | Session(user: UserID, mustEnroll: bool)
    | PendingMFA(user: UserID)
    | PendingPasswordReset(user: UserID)

  datatype Resolution = Resolution(user: UserID, isNew: bool)

  // ---------- resolving the user ----------

  /** Credentials that name the user themselves. */
  predicate NamesUser(providerType: string) {
    providerType == "local" || providerType == "passkey" || providerType == "session_token"
  }

  /** users.FindByID with the tenant check switched off. */
  predicate Found(st: Store, env: Env, id: UserID) {
    id in st.users && !env.findFails
  }

  function ResolvedLocally(st: Store, env: Env, o: Outcome): Result<Resolution, Error> {
    if o.userID.None? || o.userID.value == 0 then Err(MissingUserID)
    else if !Found(st, env, o.userID.value) then Err(UserNotFound)
    else Ok(Resolution(o.userID.value, false))
  }

  function CheckedProvider(env: Env, o: Outcome): Result<Provider, Error> {
    if o.providerID == 0 then Err(NoProviderContext)
    else if o.providerID !in env.providers then Err(ProviderNotFound)
    else
      var p := env.providers[o.providerID];
      if o.providerType != "" && p.authType != o.providerType then Err(ProviderMismatch)
      else if p.state != "" && p.state != "active" then Err(ProviderMismatch)
      else Ok(p)
  }

  /** (a) The federated identity of the subject, if there is one. */
  function ResolvedByBinding(st: Store, env: Env, o: Outcome, p: Provider): Option<Result<Resolution, Error>> {
    if o.subject == "" || (o.providerID, o.subject) !in st.bindings then None
    else
      var user := st.bindings[(o.providerID, o.subject)];
      if !Found(st, env, user) then Some(Err(UserNotFound))
      else if st.users[user].account != p.account then Some(Err(CrossTenantIdentity))
      else Some(Ok(Resolution(user, false)))
  }

  function LoginFor(
    logins: map<(ProviderID, AccountID, string), UserID>, o: Outcome, account: AccountID, subject: string)
    : Option<UserID>
  {
    if subject != "" && (o.providerID, account, subject) in logins
    then Some(logins[(o.providerID, account, subject)]) else None
  }

  /** (a2) The admin-created login the subject names, or else the login_id attribute. */
  function FoundLogin(env: Env, o: Outcome, p: Provider): Option<UserID> {
    if env.logins.None? || p.account == 0 then None
    else if LoginFor(env.logins.value, o, p.account, o.subject).Some?
    then LoginFor(env.logins.value, o, p.account, o.subject)
    else LoginFor(env.logins.value, o, p.account, o.loginID)
  }

  /** The row FederatedIdentityRepository.Create adds; it fails on a pair that is already bound. */
  function Bound(st: Store, env: Env, o: Outcome, user: UserID): Result<Store, Error> {
    if env.bindFails || (o.providerID, o.subject) in st.bindings then Err(StoreError)
    else Ok(st.(bindings := st.bindings[(o.providerID, o.subject) := user]))
  }

  function ResolvedByLogin(st: Store, env: Env, o: Outcome, p: Provider): Option<(Store, Result<Resolution, Error>)> {
    match FoundLogin(env, o, p)
    case None => None
    case Some(user) =>
      if !Found(st, env, user) then None
      else if st.users[user].account != p.account then Some((st, Err(CrossTenantIdentity)))
      else if st.users[user].role == SuperAdmin then Some((st, Err(PrivilegedAutoLink)))
      else if o.subject == "" then Some((st, Ok(Resolution(user, false))))
      else
        match Bound(st, env, o, user)
        case Err(e) => Some((st, Err(e)))
        case Ok(st') => Some((st', Ok(Resolution(user, false))))
  }

  /** FindByEmailInAccount: only ever a user of that account, and none for account 0. */
  function UserByEmail(st: Store, env: Env, email: string, account: AccountID): Option<UserID> {
    if account != 0 && (email, account) in env.emails then
      var user := env.emails[(email, account)];
      if user in st.users && st.users[user].account == account then Some(user) else None
    else None
  }

  /** (b) The auto-link to the account's user with the verified email. */
  function ResolvedByEmail(st: Store, env: Env, o: Outcome, p: Provider): Option<(Store, Result<Resolution, Error>)> {
    if !o.emailVerified || o.email == "" then None
    else
      match UserByEmail(st, env, o.email, p.account)
      case None => None
      case Some(user) =>
        if st.users[user].role == SuperAdmin then Some((st, Err(PrivilegedAutoLink)))
        else
          match Bound(st, env, o, user)
          case Err(e) => Some((st, Err(e)))
          case Ok(st') => Some((st', Ok(Resolution(user, false))))
  }

  /** (c) A new user of the provider's account, bound to the subject. */
  function Provisioned(st: Store, env: Env, o: Outcome, p: Provider): (Store, Result<Resolution, Error>) {
    if !p.autoProvision then (st, Err(ProvisioningDisabled))
    else if p.account == 0 then (st, Err(ProviderWithoutAccount))
    else if env.createFails || env.newID in st.users then (st, Err(StoreError))
    else
      var created := st.(users := st.users[env.newID := User(p.account, PlainUser, false, false, false, false)]);
      match Bound(created, env, o, env.newID)
      case Err(e) => (created, Err(e))
      case Ok(st') => (st', Ok(Resolution(env.newID, true)))
  }

  function ResolvedFederated(st: Store, env: Env, o: Outcome, p: Provider): (Store, Result<Resolution, Error>) {
    if o.subject != "" && env.lookupFails then (st, Err(StoreError))
    else if ResolvedByBinding(st, env, o, p).Some? then (st, ResolvedByBinding(st, env, o, p).value)
    else if ResolvedByLogin(st, env, o, p).Some? then ResolvedByLogin(st, env, o, p).value
    else if ResolvedByEmail(st, env, o, p).Some? then ResolvedByEmail(st, env, o, p).value
    else Provisioned(st, env, o, p)
  }

  function Resolved(st: Store, env: Env, o: Outcome): (Store, Result<Resolution, Error>) {
    if NamesUser(o.providerType) then (st, ResolvedLocally(st, env, o))
    else
      match CheckedProvider(env, o)
      case Err(e) => (st, Err(e))
      case Ok(p) => ResolvedFederated(st, env, o, p)
  }

  // ---------- the gates ----------

  datatype Gate = NoGate | Pending | MustEnroll

  function Policy(env: Env, user: User): string {
    var account := if user.account == 0 then 1 else user.account;
    if account in env.policies then env.policies[account] else "off"
  }

  function DecideGate(policy: string, user: User): Gate {
    match policy
    case "off" => NoGate
    case "optional" => if user.enrolled then Pending else NoGate
    case "required_admin" =>
      if user.role == Admin then (if user.enrolled then Pending else MustEnroll)
      else if user.enrolled then Pending else NoGate
    case "required_all" => if user.enrolled then Pending else MustEnroll
    case _ => NoGate
  }

  /** The token for a resolved user, or the gate that refuses one. */
  function Issued(env: Env, o: Outcome, id: UserID, user: User): Result<Token, Error> {
    if user.suspended then Err(AccountSuspended)
    else if user.requiresConsent then Err(ParentalConsentRequired)
    else if env.tokenFails then Err(TokenError)
    else if user.requiresReset && o.providerType == "local" then Ok(PendingPasswordReset(id))
    else
      var gate := DecideGate(Policy(env, user), user);
      if o.providerType == "passkey" then Ok(Session(id, false))
      else if o.providerType == "session_token" then Ok(Session(id, gate == MustEnroll))
      else match gate
        case NoGate => Ok(Session(id, false))
        case Pending => Ok(PendingMFA(id))
        case MustEnroll => Ok(Session(id, true))
  }

  /** A resolved user is a stored user. */
  lemma ResolvedIsStored(st: Store, env: Env, o: Outcome)
    ensures var (st', r) := Resolved(st, env, o); r.Ok? ==> r.value.user in st'.users
  {
  }

  function Executed(st: Store, env: Env, o: Outcome): (Store, Result<Token, Error>) {
    var (st', r) := Resolved(st, env, o);
    match r
    case Err(e) => (st', Err(e))
    case Ok(res) =>
      ResolvedIsStored(st, env, o);
      (st', Issued(env, o, res.user, st'.users[res.user]))
  }

  // ---------- the pipeline ----------

  class LoginPipeline {
    var users: map<UserID, User>
    var bindings: map<(ProviderID, string), UserID>

    constructor (users: map<UserID, User>, bindings: map<(ProviderID, string), UserID>)
      ensures this.users == users && this.bindings == bindings
    {
      this.users, this.bindings := users, bindings;
    }

    function Stored(): Store
      reads this
    {
      Store(users, bindings)
    }

    /** federations.Create */
    method CreateBinding(env: Env, o: Outcome, user: UserID) returns (ok: bool)
      modifies this`bindings
      ensures ok == Bound(old(Stored()), env, o, user).Ok?
      ensures Stored() == if ok then Bound(old(Stored()), env, o, user).value else old(Stored())
    {
      if env.bindFails || (o.providerID, o.subject) in bindings {
        return false;
      }
      bindings := bindings[(o.providerID, o.subject) := user];
      return true;
    }

    method ResolveProviderLogin(env: Env, o: Outcome, p: Provider) returns (r: Option<Result<Resolution, Error>>)
      modifies this`bindings
      ensures match ResolvedByLogin(old(Stored()), env, o, p)
        case None => r == None && Stored() == old(Stored())
        case Some(pair) => r == Some(pair.1) && Stored() == pair.0
    {
      if env.logins.None? || p.account == 0 {
        return None;
      }
      var candidates := [o.subject];
      if o.loginID != "" && o.loginID != o.subject {
        candidates := candidates + [o.loginID];
      }
      var login: Option<UserID> := None;
      for i := 0 to |candidates|
        invariant login == None
        invariant i == 0 || LoginFor(env.logins.value, o, p.account, o.subject) == None
        invariant i == 2 ==> LoginFor(env.logins.value, o, p.account, o.loginID) == None
      {
        if candidates[i] == "" {
          continue;
        }
        if (o.providerID, p.account, candidates[i]) in env.logins.value {
          login := Some(env.logins.value[(o.providerID, p.account, candidates[i])]);
          break;
        }
      }
      assert login == FoundLogin(env, o, p);
      if login.None? || !Found(Stored(), env, login.value) {
        return None;
      }
      var user := users[login.value];
      if user.account != p.account {
        return Some(Err(CrossTenantIdentity));
      }
      if user.role == SuperAdmin {
        return Some(Err(PrivilegedAutoLink));
      }
      if o.subject != "" {
        var ok := CreateBinding(env, o, login.value);
        if !ok {
          return Some(Err(StoreError));
        }
      }
      return Some(Ok(Resolution(login.value, false)));
    }

    method LinkByEmail(env: Env, o: Outcome, p: Provider) returns (r: Option<Result<Resolution, Error>>)
      modifies this`bindings
      ensures match ResolvedByEmail(old(Stored()), env, o, p)
        case None => r == None && Stored() == old(Stored())
        case Some(pair) => r == Some(pair.1) && Stored() == pair.0
    {
      if !o.emailVerified || o.email == "" {
        return None;
      }
      var user := UserByEmail(Stored(), env, o.email, p.account);
      if user.None? {
        return None;
      }
      if users[user.value].role == SuperAdmin {
        return Some(Err(PrivilegedAutoLink));
      }
      var ok := CreateBinding(env, o, user.value);
      return Some(if ok then Ok(Resolution(user.value, false)) else Err(StoreError));
    }

    method Provision(env: Env, o: Outcome, p: Provider) returns (r: Result<Resolution, Error>)
      modifies this
      ensures (Stored(), r) == Provisioned(old(Stored()), env, o, p)
    {
      if !p.autoProvision {
        return Err(ProvisioningDisabled);
      }
      if p.account == 0 {
        return Err(ProviderWithoutAccount);
      }
      if env.createFails || env.newID in users {
        return Err(StoreError);
      }
      users := users[env.newID := User(p.account, PlainUser, false, false, false, false)];
      var ok := CreateBinding(env, o, env.newID);
      return if ok then Ok(Resolution(env.newID, true)) else Err(StoreError);
    }

    method ResolveFederated(env: Env, o: Outcome, p: Provider) returns (r: Result<Resolution, Error>)
      modifies this
      ensures (Stored(), r) == ResolvedFederated(old(Stored()), env, o, p)
    {
      if o.subject != "" {
        if env.lookupFails {
          return Err(StoreError);
        }
        var bound := ResolvedByBinding(Stored(), env, o, p);
        if bound.Some? {
          return bound.value;
        }
      }
      var byLogin := ResolveProviderLogin(env, o, p);
      if byLogin.Some? {
        return byLogin.value;
      }
      var byEmail := LinkByEmail(env, o, p);
      if byEmail.Some? {
        return byEmail.value;
      }
      r := Provision(env, o, p);
    }

    method ResolveUser(env: Env, o: Outcome) returns (r: Result<Resolution, Error>)
      modifies this
      ensures (Stored(), r) == Resolved(old(Stored()), env, o)
    {
      if NamesUser(o.providerType) {
        return ResolvedLocally(Stored(), env, o);
      }
      var p := CheckedProvider(env, o);
      if p.Err? {
        return Err(p.error);
      }
      r := ResolveFederated(env, o, p.value);
    }

    method Execute(env: Env, o: Outcome) returns (r: Result<Token, Error>)
      modifies this
      ensures (Stored(), r) == Executed(old(Stored()), env, o)
    {
      ResolvedIsStored(Stored(), env, o);
      var resolved := ResolveUser(env, o);
      if resolved.Err? {
        return Err(resolved.error);
      }
      return Issued(env, o, resolved.value.user, users[resolved.value.user]);
    }
  }
}
