/**
 * The client's authentication reducer: a pure state machine over `AuthState`. Every action
 * builds a fresh state from the old one; nothing is updated in place.
 */
module AuthReducer {
  import opened Wrappers

  /** The user the client keeps: the id, the e-mail and the display name, which may be missing. */
  datatype ClientUser = ClientUser(id: string, email: string, name: Option<string>)

  datatype AuthState = AuthState(
    user: Option<ClientUser>,
    isAuthenticated: bool,
    isLoading: bool,
    error: Option<string>)

  /** `initialState`: nobody signed in, nothing loading, no error. */
  const InitialState := AuthState(None, false, false, None)

  /** The eleven action kinds; the success and failure actions carry their payload. */
  datatype AuthAction =
    | LoginRequest
    | LoginSuccess(user: ClientUser)
    | LoginFailure(message: string)
    | SignupRequest
    | SignupSuccess(user: ClientUser)
    | SignupFailure(message: string)
    | Logout
    | ResetPasswordRequest
    | ResetPasswordSuccess
    | ResetPasswordFailure(message: string)
    | ClearError
  {
    predicate IsRequest() { LoginRequest? || SignupRequest? || ResetPasswordRequest? }
    predicate IsSuccess() { LoginSuccess? || SignupSuccess? }
    predicate IsFailure() { LoginFailure? || SignupFailure? || ResetPasswordFailure? }
  }

  /** `authReducer`. */
  function Reduce(state: AuthState, action: AuthAction): AuthState
  {
    match action
    case LoginRequest | SignupRequest | ResetPasswordRequest =>
      state.(isLoading := true, error := None)
    case LoginSuccess(u) =>
      state.(isLoading := false, isAuthenticated := true, user := Some(u), error := None)
    case SignupSuccess(u) =>
      state.(isLoading := false, isAuthenticated := true, user := Some(u), error := None)
    case LoginFailure(m) => state.(isLoading := false, error := Some(m))
    case SignupFailure(m) => state.(isLoading := false, error := Some(m))
    case ResetPasswordFailure(m) => state.(isLoading := false, error := Some(m))
    case Logout => InitialState
    case ResetPasswordSuccess => state.(isLoading := false, error := None)
    case ClearError => state.(error := None)
  }

  /** The state after a series of actions dispatched one after the other. */
  function ReduceAll(state: AuthState, actions: seq<AuthAction>): AuthState
    decreases |actions|
  {
    if |actions| == 0 then state else ReduceAll(Reduce(state, actions[0]), actions[1..])
  }

  /** Dispatching two actions is applying the reducer twice. */
  lemma ReduceAllPair(state: AuthState, first: AuthAction, second: AuthAction)
    ensures ReduceAll(state, [first, second]) == Reduce(Reduce(state, first), second)
  {
    var once := Reduce(state, first);
    assert [first, second][1..] == [second];
    assert ReduceAll(state, [first, second]) == ReduceAll(once, [second]);
    assert [second][1..] == [];
    assert ReduceAll(once, [second]) == ReduceAll(Reduce(once, second), []);
  }

  /** A request starts loading and clears the error; who is signed in does not change. */
  lemma RequestStartsLoading(state: AuthState, action: AuthAction)
    requires action.IsRequest()
    ensures Reduce(state, action) == AuthState(state.user, state.isAuthenticated, true, None)
  {
  }

  /** A success signs in the payload's user, stops loading and clears the error, whatever came before. */
  lemma SuccessSignsIn(state: AuthState, action: AuthAction)
    requires action.IsSuccess()
    ensures Reduce(state, action) == AuthState(Some(action.user), true, false, None)
  {
  }

  /** A failure stops loading and records its message; who is signed in does not change. */
  lemma FailureRecordsMessage(state: AuthState, action: AuthAction)
    requires action.IsFailure()
    ensures Reduce(state, action) == AuthState(state.user, state.isAuthenticated, false, Some(action.message))
  {
  }

  /** Logging out returns to the initial state from any state, and logging out twice is logging out once. */
  lemma LogoutResets(state: AuthState)
    ensures Reduce(state, Logout) == AuthState(None, false, false, None)
    ensures Reduce(Reduce(state, Logout), Logout) == Reduce(state, Logout)
  {
  }

  /** Clearing the error touches nothing else, and clearing twice is clearing once. */
  lemma ClearErrorOnlyClears(state: AuthState)
    ensures Reduce(state, ClearError) == AuthState(state.user, state.isAuthenticated, state.isLoading, None)
    ensures Reduce(Reduce(state, ClearError), ClearError) == Reduce(state, ClearError)
  {
  }

  /** A finished reset request stops loading and clears the error; who is signed in does not change. */
  lemma ResetPasswordSuccessKeepsSession(state: AuthState)
    ensures Reduce(state, ResetPasswordSuccess) == AuthState(state.user, state.isAuthenticated, false, None)
  {
  }

  /** The state's invariant: the client counts as signed in exactly when it holds a user. */
  predicate Consistent(state: AuthState)
  {
    state.isAuthenticated <==> state.user.Some?
  }

  /** The initial state is consistent and every action keeps the invariant. */
  lemma ReduceKeepsConsistent(state: AuthState, action: AuthAction)
    ensures Consistent(InitialState)
    ensures Consistent(state) ==> Consistent(Reduce(state, action))
  {
  }

  /** Any series of actions from a consistent state, the initial state among them, ends in a consistent state. */
  lemma {:induction false} ReduceAllKeepsConsistent(state: AuthState, actions: seq<AuthAction>)
    requires Consistent(state)
    ensures Consistent(ReduceAll(state, actions))
    decreases |actions|
  {
    if |actions| > 0 {
      ReduceKeepsConsistent(state, actions[0]);
      ReduceAllKeepsConsistent(Reduce(state, actions[0]), actions[1..]);
    }
  }

  /** Whatever was dispatched before, the state after a logout followed by further actions is the initial state run through those actions. */
  lemma {:induction false} LogoutForgetsHistory(state: AuthState, before: seq<AuthAction>, after: seq<AuthAction>)
    ensures ReduceAll(state, before + [Logout] + after) == ReduceAll(InitialState, after)
    decreases |before|
  {
    if |before| == 0 {
      assert before + [Logout] + after == [Logout] + after;
      assert ([Logout] + after)[1..] == after;
    } else {
      assert (before + [Logout] + after)[0] == before[0];
      assert (before + [Logout] + after)[1..] == before[1..] + [Logout] + after;
      LogoutForgetsHistory(Reduce(state, before[0]), before[1..], after);
    }
  }
}
