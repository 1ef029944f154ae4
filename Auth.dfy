/**
 * The session state machine of src/context/AuthContext.tsx: the pure
 * reducer over seven actions, the initial state read from storage, the
 * effect that mirrors `state.token` into storage, and the provider's
 * `login`, `register` and `logout`, each a sequence of dispatches.
 * The password-confirmation guard of src/components/auth/RegisterForm.tsx
 * sits in front of `register`.
 */
module Auth {
  import opened Types

  /** What a successful credential exchange resolves with. */
  datatype Payload = Payload(user: User, token: string)

  datatype Action =
    | LoginRequest
    | LoginSuccess(payload: Payload)
    | LoginFailure(message: string)
    | Logout
    | RegisterRequest
    | RegisterSuccess(payload: Payload)
    | RegisterFailure(message: string)

  /** The token the mocked identity backend hands out. */
  const FakeToken := "fake-jwt-token"
  const LoginFailureMessage := "Falha ao fazer login. Verifique suas credenciais."
  const RegisterFailureMessage := "Falha ao registrar. Tente novamente."
  const PasswordMismatchMessage := "As senhas não coincidem"

  /** `isAuthenticated` agrees with the truthiness of `token`. */
  predicate Consistent(s: AuthState) {
    s.isAuthenticated == Truthy(s.token)
  }

  /** A pending request never carries an error. */
  predicate PendingClean(s: AuthState) {
    s.isLoading ==> s.error == None
  }

  predicate WellFormed(s: AuthState) {
    Consistent(s) && PendingClean(s)
  }

  /** Success payloads carry a non-empty token. */
  predicate ProperAction(a: Action) {
    (a.LoginSuccess? ==> a.payload.token != "") && (a.RegisterSuccess? ==> a.payload.token != "")
  }

  /**
   * `initialState`: only the token is read from storage, so a restored
   * session is authenticated while it has no user.
   */
  function InitialState(stored: Option<string>): (s: AuthState)
    ensures WellFormed(s)
    ensures s.token == stored && s.user == None && !s.isLoading && s.error == None
    ensures s.isAuthenticated <==> Truthy(stored)
  {
    AuthState(None, stored, Truthy(stored), false, None)
  }

  /** `authReducer`. */
  function Reduce(s: AuthState, a: Action): (r: AuthState)
    ensures WellFormed(s) && ProperAction(a) ==> WellFormed(r)
    ensures r.isAuthenticated ==> r.error == None || s.isAuthenticated
  {
    match a
    case LoginRequest | RegisterRequest =>
      s.(isLoading := true, error := None)
    case LoginSuccess(_) | RegisterSuccess(_) =>
      s.(isLoading := false, isAuthenticated := true, user := Some(a.payload.user),
         token := Some(a.payload.token), error := None)
    case LoginFailure(_) | RegisterFailure(_) =>
      s.(isLoading := false, isAuthenticated := false, user := None,
         token := None, error := Some(a.message))
    case Logout =>
      s.(isAuthenticated := false, user := None, token := None)
  }

  /** The state after dispatching `acts` in order. */
  function ReduceAll(s: AuthState, acts: seq<Action>): (r: AuthState)
    ensures acts != [] && acts[|acts| - 1] == Logout ==> !r.isAuthenticated && r.user == None && r.token == None
    decreases |acts|
  {
    if acts == [] then s else ReduceAll(Reduce(s, acts[0]), acts[1..])
  }

  /** Dispatching two actions is reducing by the first, then by the second. */
  lemma ReduceAllTwo(s: AuthState, a: Action, b: Action)
    ensures ReduceAll(s, [a, b]) == Reduce(Reduce(s, a), b)
  {
    assert [a, b][1..] == [b];
    assert [b][1..] == [];
    calc {
      ReduceAll(s, [a, b]);
      ReduceAll(Reduce(s, a), [b]);
      ReduceAll(Reduce(Reduce(s, a), b), []);
    }
  }

  /** The effect on `[state.token]`: what storage holds for a given token. */
  function Persisted(token: Option<string>): (stored: Option<string>)
    ensures Truthy(token) ==> stored == token
    ensures !Truthy(token) ==> stored == None
  {
    if Truthy(token) then token else None
  }

  lemma RequestMarksPending(s: AuthState, a: Action)
    requires a.LoginRequest? || a.RegisterRequest?
    ensures var r := Reduce(s, a);
      r.isLoading && r.error == None
      && r.user == s.user && r.token == s.token && r.isAuthenticated == s.isAuthenticated
  {
  }

  lemma SuccessSettles(s: AuthState, a: Action)
    requires a.LoginSuccess? || a.RegisterSuccess?
    ensures var r := Reduce(s, a);
      r.isAuthenticated && r.user == Some(a.payload.user) && r.token == Some(a.payload.token)
      && !r.isLoading && r.error == None
  {
  }

  lemma FailureClears(s: AuthState, a: Action)
    requires a.LoginFailure? || a.RegisterFailure?
    ensures var r := Reduce(s, a);
      !r.isAuthenticated && r.user == None && r.token == None
      && !r.isLoading && r.error == Some(a.message)
  {
  }

  lemma LogoutClears(s: AuthState)
    ensures var r := Reduce(s, Logout);
      !r.isAuthenticated && r.user == None && r.token == None
      && r.isLoading == s.isLoading && r.error == s.error
  {
  }

  lemma LogoutIdempotent(s: AuthState)
    ensures Reduce(Reduce(s, Logout), Logout) == Reduce(s, Logout)
  {
  }

  /** The reducer treats the login and register variants of an action alike. */
  lemma LoginRegisterAlike(s: AuthState, p: Payload, m: string)
    ensures Reduce(s, LoginRequest) == Reduce(s, RegisterRequest)
    ensures Reduce(s, LoginSuccess(p)) == Reduce(s, RegisterSuccess(p))
    ensures Reduce(s, LoginFailure(m)) == Reduce(s, RegisterFailure(m))
  {
  }

  /** Every sequence of proper actions keeps a well-formed state well-formed. */
  lemma {:induction false} ReduceAllWellFormed(s: AuthState, acts: seq<Action>)
    requires WellFormed(s)
    requires forall i :: 0 <= i < |acts| ==> ProperAction(acts[i])
    ensures WellFormed(ReduceAll(s, acts))
    decreases |acts|
  {
    if acts != [] {
      ReduceAllWellFormed(Reduce(s, acts[0]), acts[1..]);
    }
  }

  /** Reloading the page after any well-formed state restores its authentication but not its user. */
  lemma ReloadKeepsOnlyToken(s: AuthState)
    requires WellFormed(s)
    ensures var r := InitialState(Persisted(s.token));
      r.isAuthenticated == s.isAuthenticated
      && (s.isAuthenticated ==> r.token == s.token)
      && r.user == None
  {
  }

  /** The user the mocked login resolves with. */
  function LoginUser(email: string, now: Timestamp): (u: User)
    ensures u.email == email && u.role == Admin && u.id == "1"
  {
    User("1", "admin", email, Admin, None, now, now)
  }

  /** The user the mocked registration resolves with. */
  function RegisterUser(username: string, email: string, now: Timestamp): (u: User)
    ensures u.username == username && u.email == email && u.role == Editor && u.id == "2"
  {
    User("2", username, email, Editor, None, now, now)
  }

  /**
   * The dispatches of `login`: REQUEST, then SUCCESS when the credential
   * exchange resolves or FAILURE with the fixed message when it rejects.
   */
  function LoginActions(email: string, resolves: bool, now: Timestamp): (acts: seq<Action>)
    ensures |acts| == 2 && acts[0] == LoginRequest
    ensures resolves ==> acts[1] == LoginSuccess(Payload(LoginUser(email, now), FakeToken))
    ensures !resolves ==> acts[1] == LoginFailure(LoginFailureMessage)
    ensures forall i :: 0 <= i < |acts| ==> ProperAction(acts[i])
  {
    [LoginRequest,
     if resolves then LoginSuccess(Payload(LoginUser(email, now), FakeToken))
     else LoginFailure(LoginFailureMessage)]
  }

  /** The dispatches of `register`. */
  function RegisterActions(username: string, email: string, resolves: bool, now: Timestamp): (acts: seq<Action>)
    ensures |acts| == 2 && acts[0] == RegisterRequest
    ensures resolves ==> acts[1] == RegisterSuccess(Payload(RegisterUser(username, email, now), FakeToken))
    ensures !resolves ==> acts[1] == RegisterFailure(RegisterFailureMessage)
    ensures forall i :: 0 <= i < |acts| ==> ProperAction(acts[i])
  {
    [RegisterRequest,
     if resolves then RegisterSuccess(Payload(RegisterUser(username, email, now), FakeToken))
     else RegisterFailure(RegisterFailureMessage)]
  }

  /** Between the two dispatches of `login` the session is pending with no error. */
  lemma LoginPendingInBetween(s: AuthState, email: string, resolves: bool, now: Timestamp)
    ensures var p := Reduce(s, LoginActions(email, resolves, now)[0]);
      p.isLoading && p.error == None && p.token == s.token && p.user == s.user
  {
  }

  /**
   * `AuthProvider`: the reducer's state together with the stored token.
   * Every dispatch is followed by the token effect, so storage is always the
   * persisted form of `state.token`.
   */
  class Session {
    var state: AuthState
    var storage: Option<string>

    ghost predicate Valid()
      reads this
    {
      WellFormed(state) && storage == Persisted(state.token)
    }

    /** Mounting the provider: the initial state, then the effect's first run. */
    constructor (stored: Option<string>)
      ensures Valid()
      ensures state == InitialState(stored)
      ensures storage == Persisted(stored)
    {
      state := InitialState(stored);
      storage := Persisted(stored);
    }

    /** `dispatch(a)` followed by the token effect. */
    method Dispatch(a: Action)
      requires Valid() && ProperAction(a)
      modifies this
      ensures Valid()
      ensures state == Reduce(old(state), a)
    {
      state := Reduce(state, a);
      storage := Persisted(state.token);
    }

    /** `login(email, password)`; `resolves` is the outcome of the credential exchange. */
    method Login(email: string, password: string, resolves: bool, now: Timestamp)
      requires Valid()
      modifies this
      ensures Valid()
      ensures state == ReduceAll(old(state), LoginActions(email, resolves, now))
      ensures resolves ==>
        state.isAuthenticated && state.user == Some(LoginUser(email, now))
        && state.token == Some(FakeToken) && !state.isLoading && state.error == None
        && storage == Some(FakeToken)
      ensures !resolves ==>
        !state.isAuthenticated && state.user == None && state.token == None
        && !state.isLoading && state.error == Some(LoginFailureMessage)
        && storage == None
    {
      var acts := LoginActions(email, resolves, now);
      ReduceAllTwo(state, acts[0], acts[1]);
      assert acts == [acts[0], acts[1]];
      Dispatch(acts[0]);
      Dispatch(acts[1]);
    }

    /** `register(username, email, password)`. */
    method Register(username: string, email: string, password: string, resolves: bool, now: Timestamp)
      requires Valid()
      modifies this
      ensures Valid()
      ensures state == ReduceAll(old(state), RegisterActions(username, email, resolves, now))
      ensures resolves ==>
        state.isAuthenticated && state.user == Some(RegisterUser(username, email, now))
        && state.token == Some(FakeToken) && !state.isLoading && state.error == None
        && storage == Some(FakeToken)
      ensures !resolves ==>
        !state.isAuthenticated && state.user == None && state.token == None
        && !state.isLoading && state.error == Some(RegisterFailureMessage)
        && storage == None
    {
      var acts := RegisterActions(username, email, resolves, now);
      ReduceAllTwo(state, acts[0], acts[1]);
      assert acts == [acts[0], acts[1]];
      Dispatch(acts[0]);
      Dispatch(acts[1]);
    }

    /** `logout()`. */
    method Logout()
      requires Valid()
      modifies this
      ensures Valid()
      ensures state == Reduce(old(state), Action.Logout)
      ensures !state.isAuthenticated && state.user == None && state.token == None
      ensures state.isLoading == old(state.isLoading) && state.error == old(state.error)
      ensures storage == None
    {
      Dispatch(Action.Logout);
    }
  }

  /**
   * `handleSubmit` of the registration form: a mismatched confirmation is
   * reported and the session is left alone; otherwise the message is
   * cleared and `register` runs.
   */
  method SubmitRegistration(session: Session, username: string, email: string,
                            password: string, confirmPassword: string,
                            resolves: bool, now: Timestamp)
    returns (passwordError: string)
    requires session.Valid()
    modifies session
    ensures session.Valid()
    ensures password != confirmPassword ==>
      passwordError == PasswordMismatchMessage && session.state == old(session.state)
      && session.storage == old(session.storage)
    ensures password == confirmPassword ==>
      passwordError == ""
      && session.state == ReduceAll(old(session.state), RegisterActions(username, email, resolves, now))
  {
    if password != confirmPassword {
      return PasswordMismatchMessage;
    }
    passwordError := "";
    session.Register(username, email, password, resolves, now);
  }
}
