/**
 * The client's stand-in authentication service: a fixed-credential login, a sign-up that
 * only checks the password confirmation, and a reset request that always succeeds. The
 * artificial delay each call waits for is not modelled. A thrown error is `Err` with its
 * message.
 */
module MockAuthService {
  import opened Wrappers
  import opened AuthReducer

  /** The only credentials the stand-in login accepts. */
  const TestEmail := "test@example.com"
  const TestPassword := "password"

  datatype LoginCredentials = LoginCredentials(email: string, password: string)

  /** What the sign-up form submits; its `name` field may be missing. */
  datatype SignupCredentials = SignupCredentials(
    email: string,
    password: string,
    confirmPassword: string,
    name: Option<string>)

  datatype ResetPasswordCredentials = ResetPasswordCredentials(email: string)

  /** `login`: the test user for the test credentials, "Invalid email or password" for anything else. */
  function Login(credentials: LoginCredentials): (r: Result<ClientUser, string>)
    ensures r.Ok? <==> credentials.email == TestEmail && credentials.password == TestPassword
    ensures r.Ok? ==> r.value == ClientUser("1", credentials.email, Some("Test User"))
    ensures r.Err? ==> r.error == "Invalid email or password"
  {
    if credentials.email == TestEmail && credentials.password == TestPassword then
      Ok(ClientUser("1", credentials.email, Some("Test User")))
    else
      Err("Invalid email or password")
  }

  /** `signup`: "Passwords do not match" when the confirmation differs; otherwise user "1" with the submitted e-mail and name. */
  function Signup(credentials: SignupCredentials): (r: Result<ClientUser, string>)
    ensures r.Err? <==> credentials.password != credentials.confirmPassword
    ensures r.Err? ==> r.error == "Passwords do not match"
    ensures r.Ok? ==> r.value == ClientUser("1", credentials.email, credentials.name)
  {
    if credentials.password != credentials.confirmPassword then Err("Passwords do not match")
    else Ok(ClientUser("1", credentials.email, credentials.name))
  }

  /** `resetPassword`: it always succeeds and returns nothing. */
  function ResetPassword(credentials: ResetPasswordCredentials): (r: Result<(), string>)
    ensures r == Ok(())
  {
    Ok(())
  }

  /**
   * The actions the client dispatches for one login: the request, then the success with the
   * returned user or the failure with the error's message.
   */
  function LoginActions(credentials: LoginCredentials): seq<AuthAction>
  {
    match Login(credentials)
    case Ok(u) => [LoginRequest, LoginSuccess(u)]
    case Err(m) => [LoginRequest, LoginFailure(m)]
  }

  /** The same for a sign-up. */
  function SignupActions(credentials: SignupCredentials): seq<AuthAction>
  {
    match Signup(credentials)
    case Ok(u) => [SignupRequest, SignupSuccess(u)]
    case Err(m) => [SignupRequest, SignupFailure(m)]
  }

  /**
   * A login from any state ends with loading finished. With the test credentials the test
   * user is signed in and no error is shown; with any others the error is "Invalid email or
   * password" and whoever was signed in before stays signed in.
   */
  lemma LoginFlow(state: AuthState, credentials: LoginCredentials)
    ensures !ReduceAll(state, LoginActions(credentials)).isLoading
    ensures credentials.email == TestEmail && credentials.password == TestPassword ==>
              ReduceAll(state, LoginActions(credentials))
              == AuthState(Some(ClientUser("1", TestEmail, Some("Test User"))), true, false, None)
    ensures !(credentials.email == TestEmail && credentials.password == TestPassword) ==>
              ReduceAll(state, LoginActions(credentials))
              == AuthState(state.user, state.isAuthenticated, false, Some("Invalid email or password"))
  {
    var actions := LoginActions(credentials);
    ReduceAllPair(state, actions[0], actions[1]);
    assert actions == [actions[0], actions[1]];
  }

  /**
   * A sign-up from any state signs in user "1" with the submitted e-mail exactly when the
   * confirmation matches, and otherwise shows "Passwords do not match" and leaves the session alone.
   */
  lemma SignupFlow(state: AuthState, credentials: SignupCredentials)
    ensures ReduceAll(state, SignupActions(credentials)).isAuthenticated
            <==> state.isAuthenticated || credentials.password == credentials.confirmPassword
    ensures credentials.password == credentials.confirmPassword ==>
              ReduceAll(state, SignupActions(credentials))
              == AuthState(Some(ClientUser("1", credentials.email, credentials.name)), true, false, None)
    ensures credentials.password != credentials.confirmPassword ==>
              ReduceAll(state, SignupActions(credentials))
              == AuthState(state.user, state.isAuthenticated, false, Some("Passwords do not match"))
  {
    var actions := SignupActions(credentials);
    ReduceAllPair(state, actions[0], actions[1]);
    assert actions == [actions[0], actions[1]];
  }
}
