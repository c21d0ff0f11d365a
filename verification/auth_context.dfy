/** frontend/src/contexts/AuthContext.tsx: the session store. Its state is
    the React state `{user, token, loading}`, the browser storage entries
    "token" and "user", and the HTTP client's default Authorization header.
    Every call it makes passes through the response interceptor of
    frontend/src/services/api.ts, which is composed in here. */
module AuthContext {
  import opened Types
  import opened ApiClient

  datatype Session = Session(
    user: Option<User>,
    token: Option<string>,
    loading: bool,
    storage: Storage,
    authHeader: Option<string>)

  /** What the login endpoint answers with. */
  datatype LoginData = LoginData(token: string, user: User)

  /** `user` and `token` are set and cleared together. */
  predicate Paired(s: Session) {
    s.user.None? <==> s.token.None?
  }

  /** The default Authorization header is "Bearer <token>" exactly while a token is held. */
  predicate HeaderFollowsToken(s: Session) {
    s.authHeader == (if s.token.Some? then Some(Bearer + s.token.value) else None)
  }

  /** The provider as first rendered, over whatever storage the browser kept. */
  function Init(stored: Storage): (s: Session)
    ensures s.user.None? && s.token.None? && s.loading && s.storage == stored
    ensures Paired(s) && HeaderFollowsToken(s)
  {
    Session(None, None, true, stored, None)
  }

  /** The startup effect: restores user, token and header only when both
      storage entries are present, and ends loading either way. */
  function Restore(s: Session): (s': Session)
    ensures !s'.loading && s'.storage == s.storage
    ensures Truthy(s.storage.token) && s.storage.user.Some? ==>
      s'.token == s.storage.token && s'.user == s.storage.user && s'.authHeader == Some(Bearer + s.storage.token.value)
    ensures !(Truthy(s.storage.token) && s.storage.user.Some?) ==>
      s'.user == s.user && s'.token == s.token && s'.authHeader == s.authHeader
    ensures Paired(s) ==> Paired(s')
    ensures HeaderFollowsToken(s) ==> HeaderFollowsToken(s')
  {
    if Truthy(s.storage.token) && s.storage.user.Some? then
      Session(s.storage.user, s.storage.token, false, s.storage, Some(Bearer + s.storage.token.value))
    else s.(loading := false)
  }

  /** `login`: on success sets token, user, both storage entries and the
      default header; on failure the React state is left alone and the
      error message is the server's or "Login failed". A 401 answer (wrong
      credentials) still clears storage on its way through the interceptor. */
  function Login(s: Session, reply: Reply<LoginData>): (r: (Session, Option<string>))
    ensures reply.Ok? ==>
      && r.1.None?
      && r.0.user == Some(reply.data.user) && r.0.token == Some(reply.data.token)
      && r.0.storage == Storage(Some(reply.data.token), Some(reply.data.user))
      && r.0.authHeader == Some(Bearer + reply.data.token)
    ensures reply.Err? ==>
      && r.1 == Some(MessageOr(reply.error, "Login failed"))
      && r.0 == s.(storage := OnResponse(s.storage, reply).0)
    ensures reply.Err? && !IsUnauthorized(reply) ==> r.0 == s
    ensures r.0.loading == s.loading
    ensures Paired(s) ==> Paired(r.0)
    ensures HeaderFollowsToken(s) ==> HeaderFollowsToken(r.0)
  {
    var (storage, reply) := OnResponse(s.storage, reply);
    match reply
    case Ok(d) =>
      (Session(Some(d.user), Some(d.token), s.loading, Storage(Some(d.token), Some(d.user)), Some(Bearer + d.token)), None)
    case Err(e) =>
      (s.(storage := storage), Some(MessageOr(e, "Login failed")))
  }

  /** The request `register` sends to the registration endpoint. */
  datatype RegisterCall = RegisterCall(name: string, email: string, password: string, role: string)

  datatype RegisterOutcome = RegisterOutcome(
    session: Session, sent: RegisterCall, loginAttempted: bool, error: Option<string>)

  /** `register`: creates the account, then logs in with the same
      credentials. The login is attempted only when creation succeeded. If
      creation fails the message is the server's or "Registration failed";
      if the login fails, the Error it rethrows carries no response, so the
      message is always "Registration failed". */
  function Register(s: Session, name: string, email: string, password: string, role: Option<string>,
                    created: Reply<()>, loggedIn: Reply<LoginData>): (r: RegisterOutcome)
    ensures r.sent == RegisterCall(name, email, password, RoleOrParticipant(role))
    ensures r.loginAttempted <==> created.Ok?
    ensures created.Err? ==>
      r.error == Some(MessageOr(created.error, "Registration failed"))
      && r.session == s.(storage := OnResponse(s.storage, created).0)
    ensures created.Ok? ==> r.session == Login(s, loggedIn).0
    ensures created.Ok? && loggedIn.Err? ==> r.error == Some("Registration failed")
    ensures r.error.None? <==> created.Ok? && loggedIn.Ok?
    ensures Paired(s) ==> Paired(r.session)
    ensures HeaderFollowsToken(s) ==> HeaderFollowsToken(r.session)
  {
    var call := RegisterCall(name, email, password, RoleOrParticipant(role));
    var (storage, created) := OnResponse(s.storage, created);
    match created
    case Err(e) => RegisterOutcome(s.(storage := storage), call, false, Some(MessageOr(e, "Registration failed")))
    case Ok(_) =>
      var (s', loginError) := Login(s, loggedIn);
      RegisterOutcome(s', call, true, if loginError.Some? then Some("Registration failed") else None)
  }

  /** `logout`: clears user, token, both storage entries and the default header. */
  function Logout(s: Session): (s': Session)
    ensures s'.user.None? && s'.token.None? && s'.storage == Cleared && s'.authHeader.None?
    ensures s'.loading == s.loading
    ensures Paired(s') && HeaderFollowsToken(s')
  {
    Session(None, None, s.loading, Cleared, None)
  }

  /** After a successful login a page reload restores the same session. */
  lemma LoginThenRestore(s: Session, d: LoginData)
    requires d.token != ""
    ensures var s1 := Login(s, Ok(d)).0;
            var s2 := Restore(Init(s1.storage));
            s2.user == s1.user && s2.token == s1.token && s2.authHeader == s1.authHeader
  {
  }

  /** After logout a reload restores nobody. */
  lemma LogoutThenRestore(s: Session)
    ensures var s2 := Restore(Init(Logout(s).storage));
            s2.user.None? && s2.token.None?
  {
  }
}
