/**
 * The authentication service: `register` forwards to the repository with the role set
 * `['USER']`, and `login` runs its checks in a fixed order with early exits (unknown
 * e-mail, locked account, wrong password, success), writing the lockout fields of the
 * loaded document in place. Each `login` is one atomic step at time `now`.
 */
module AuthService {
  import opened Wrappers
  import opened AuthErrors
  import opened UserModel
  import opened UserRepository
  import PasswordUtils

  datatype RegisterInput = RegisterInput(email: string, username: string, password: string)

  datatype LoginInput = LoginInput(email: string, password: string)

  datatype AuthResponse = AuthResponse(token: string, user: PublicUser)

  /** How an attempt on an existing account ends. */
  datatype LoginOutcome = Granted | Denied(error: AuthError)

  /**
   * The decision `login` takes once the account is found, given whether the password
   * verifies: the lock is checked before the password, a wrong password counts a failure,
   * and a right one clears the counter and lock and records the login time.
   */
  function LoginStep(s: LoginState, passwordValid: bool, now: int): (LoginOutcome, LoginState)
  {
    if IsLocked(s, now) then (Denied(AccountLocked), s)
    else if !passwordValid then (Denied(InvalidCredentials), AfterFailure(s, now))
    else (Granted, AfterLastLogin(AfterReset(s), now))
  }

  /** `verifyPassword` of the presented password against the document's stored hash and salt. */
  predicate PasswordMatches(crypto: PasswordUtils.Crypto, doc: UserDocument, password: string)
  {
    PasswordUtils.VerifyPassword(crypto, password, doc.passwordHash, doc.salt)
  }

  /** What `login` returns for an outcome: the token and user on success, the error otherwise. */
  function Respond(outcome: LoginOutcome, token: string, user: PublicUser): Result<AuthResponse, AuthError>
  {
    match outcome
    case Granted => Ok(AuthResponse(token, user))
    case Denied(e) => Err(e)
  }

  /** One attempt in a series: whether the presented password verifies, and when it is made. */
  datatype Attempt = Attempt(passwordValid: bool, now: int)

  /** The outcomes and the final lockout fields of a series of attempts on one account. */
  function Replay(s: LoginState, attempts: seq<Attempt>): (r: (seq<LoginOutcome>, LoginState))
    ensures |r.0| == |attempts|
    decreases |attempts|
  {
    if |attempts| == 0 then ([], s)
    else
      var step := LoginStep(s, attempts[0].passwordValid, attempts[0].now);
      var rest := Replay(step.1, attempts[1..]);
      ([step.0] + rest.0, rest.1)
  }

  /** While the account is locked, every attempt is refused with the lock message and changes nothing, right password or not. */
  lemma LockedRefusesAnyPassword(s: LoginState, passwordValid: bool, now: int)
    requires IsLocked(s, now)
    ensures LoginStep(s, passwordValid, now) == (Denied(AccountLocked), s)
    ensures Denied(AccountLocked).error.Message() == "Account is locked. Please try again later or reset your password."
  {
  }

  /** A wrong password on an unlocked account counts one failure and gets the same message as an unknown e-mail. */
  lemma WrongPasswordCounts(s: LoginState, now: int)
    requires !IsLocked(s, now)
    ensures LoginStep(s, false, now).0 == Denied(InvalidCredentials)
    ensures LoginStep(s, false, now).1.failedLoginAttempts == s.failedLoginAttempts + 1
    ensures LoginStep(s, false, now).1.lastLogin == s.lastLogin
    ensures InvalidCredentials.Message() == "Invalid email or password"
  {
  }

  /** A right password on an unlocked account succeeds and leaves no failures, no lock, and `now` as the last login. */
  lemma RightPasswordClears(s: LoginState, now: int)
    requires !IsLocked(s, now)
    ensures LoginStep(s, true, now) == (Granted, LoginState(0, None, Some(now)))
  {
  }

  /**
   * On an unlocked account with no lock time set, a run of wrong passwords that stays below
   * the threshold is answered "Invalid email or password" every time, counts every failure,
   * and sets no lock.
   */
  lemma {:induction false} WrongPasswordsBelowThreshold(s: LoginState, attempts: seq<Attempt>)
    requires s.accountLockedUntil == None
    requires s.failedLoginAttempts + |attempts| < MaxFailedLoginAttempts
    requires forall i :: 0 <= i < |attempts| ==> !attempts[i].passwordValid
    ensures forall i :: 0 <= i < |attempts| ==> Replay(s, attempts).0[i] == Denied(InvalidCredentials)
    ensures Replay(s, attempts).1 == s.(failedLoginAttempts := s.failedLoginAttempts + |attempts|)
    decreases |attempts|
  {
    if |attempts| > 0 {
      var s1 := AfterFailure(s, attempts[0].now);
      assert LoginStep(s, false, attempts[0].now) == (Denied(InvalidCredentials), s1);
      WrongPasswordsBelowThreshold(s1, attempts[1..]);
    }
  }

  /**
   * From a fresh counter, five wrong passwords in a row are each answered "Invalid email or
   * password" (the fifth as well) and leave the account locked until 30 minutes after the
   * fifth; a sixth attempt inside that window is refused with the lock message whatever the
   * password, and changes nothing.
   */
  lemma {:induction false} FifthFailureLocksSixthIsRefused(s: LoginState, attempts: seq<Attempt>, sixth: Attempt)
    requires s.failedLoginAttempts == 0 && s.accountLockedUntil == None
    requires |attempts| == 5
    requires forall i :: 0 <= i < 5 ==> !attempts[i].passwordValid
    requires sixth.now < attempts[4].now + LockDurationMs
    ensures forall i :: 0 <= i < 5 ==> Replay(s, attempts).0[i] == Denied(InvalidCredentials)
    ensures Replay(s, attempts).1.failedLoginAttempts == 5
    ensures Replay(s, attempts).1.accountLockedUntil == Some(attempts[4].now + LockDurationMs)
    ensures LoginStep(Replay(s, attempts).1, sixth.passwordValid, sixth.now)
            == (Denied(AccountLocked), Replay(s, attempts).1)
  {
    var first4 := attempts[..4];
    WrongPasswordsBelowThreshold(s, first4);
    ReplaySplit(s, first4, [attempts[4]]);
    assert first4 + [attempts[4]] == attempts;
    var s4 := Replay(s, first4).1;
    assert s4.failedLoginAttempts == 4 && s4.accountLockedUntil == None;
    var last := [attempts[4]];
    assert last[0] == attempts[4] && last[1..] == [];
    assert !attempts[4].passwordValid && !IsLocked(s4, attempts[4].now);
    var s5 := AfterFailure(s4, attempts[4].now);
    assert LoginStep(s4, false, attempts[4].now) == (Denied(InvalidCredentials), s5);
    assert Replay(s5, []) == ([], s5);
    assert Replay(s4, last).0 == [Denied(InvalidCredentials)] + [];
    assert [Denied(InvalidCredentials)] + [] == [Denied(InvalidCredentials)];
    assert Replay(s4, last) == ([Denied(InvalidCredentials)], AfterFailure(s4, attempts[4].now));
  }

  /** Replaying two series one after the other is replaying their concatenation. */
  lemma {:induction false} ReplaySplit(s: LoginState, xs: seq<Attempt>, ys: seq<Attempt>)
    ensures Replay(s, xs + ys).0 == Replay(s, xs).0 + Replay(Replay(s, xs).1, ys).0
    ensures Replay(s, xs + ys).1 == Replay(Replay(s, xs).1, ys).1
    decreases |xs|
  {
    if |xs| > 0 {
      var step := LoginStep(s, xs[0].passwordValid, xs[0].now);
      assert (xs + ys)[0] == xs[0];
      assert (xs + ys)[1..] == xs[1..] + ys;
      ReplaySplit(step.1, xs[1..], ys);
    } else {
      assert xs + ys == ys;
    }
  }

  /**
   * Once the counter has reached the threshold it stays there after the lock runs out, so
   * the first wrong password after expiry is answered "Invalid email or password" and locks
   * the account again; an attempt within the next 30 minutes is refused with the lock message.
   */
  lemma ExpiredLockRelocks(s: LoginState, now: int, later: Attempt)
    requires s.failedLoginAttempts >= MaxFailedLoginAttempts
    requires !IsLocked(s, now)
    requires now <= later.now < now + LockDurationMs
    ensures LoginStep(s, false, now).0 == Denied(InvalidCredentials)
    ensures LoginStep(LoginStep(s, false, now).1, later.passwordValid, later.now).0 == Denied(AccountLocked)
  {
    ExpiredLockRelocksOnNextFailure(s, now, later.now);
  }

  /** `register`: `save` with exactly the role set `['USER']`, whatever is submitted. */
  method Register(repo: Repository, input: RegisterInput, newId: string, random: PasswordUtils.Bytes16,
                  crypto: PasswordUtils.Crypto, now: int)
    returns (r: Result<PublicUser, AuthError>)
    requires repo.Valid()
    modifies repo
    ensures repo.Valid()
    ensures EmailTaken(old(repo.users), input.email) ==> r == Err(DuplicateEmail)
    ensures !EmailTaken(old(repo.users), input.email) && UsernameTaken(old(repo.users), input.username) ==>
              r == Err(DuplicateUsername)
    ensures !EmailTaken(old(repo.users), input.email) && !UsernameTaken(old(repo.users), input.username) ==>
              if !SchemaValid(input.email, input.username, ["USER"]) then r == Err(ValidationFailed)
              else if newId in old(repo.users) then r == Err(DuplicateKey)
              else r.Ok?
    ensures r.Err? ==> repo.users == old(repo.users)
    ensures r.Ok? ==> newId !in old(repo.users) && newId in repo.users
    ensures r.Ok? ==> repo.users == old(repo.users)[newId := repo.users[newId]]
    ensures r.Ok? ==> repo.users[newId].roles == ["USER"] && r.value.roles == ["USER"]
    ensures r.Ok? ==> repo.users[newId].email == input.email && repo.users[newId].username == input.username
    ensures r.Ok? ==>
              var doc := repo.users[newId];
              && doc.salt == PasswordUtils.GenerateSalt(random)
              && doc.passwordHash == PasswordUtils.HashPassword(crypto, input.password, doc.salt)
              && doc.State() == LoginState(0, None, Some(now))
              && doc.isActive && !doc.isVerified
              && r.value == ToGraphQLUser(doc.ToCustomJson(), now)
  {
    r := repo.Save(UserInput(input.email, input.username, input.password, Some(["USER"]), false),
                   newId, random, crypto, now);
  }

  /**
   * `login` at time `now`. The collection's documents stay the same; the lockout fields of
   * the one document with the given e-mail change as `LoginStep` says, and no other
   * document changes. A token is issued only when the step grants the login, and it is
   * signed for exactly that document's id and e-mail.
   */
  method Login(repo: Repository, input: LoginInput, crypto: PasswordUtils.Crypto,
               config: PasswordUtils.Config, now: int)
    returns (r: Result<AuthResponse, AuthError>)
    requires repo.Valid()
    modifies repo.users.Values
    ensures repo.users == old(repo.users)
    ensures !EmailTaken(repo.users, input.email) ==>
              r == Err(InvalidCredentials) && repo.Rows() == old(repo.Rows())
    ensures forall k :: k in repo.users && repo.users[k].email == input.email ==>
              repo.Rows() == old(repo.Rows())[k := LoginStep(old(repo.Rows())[k], PasswordMatches(crypto, repo.users[k], input.password), now).1]
    ensures forall k :: k in repo.users && repo.users[k].email == input.email ==>
              r == Respond(LoginStep(old(repo.Rows())[k], PasswordMatches(crypto, repo.users[k], input.password), now).0,
                           PasswordUtils.GenerateJwtToken(crypto, config, k, repo.users[k].email),
                           ToGraphQLUser(repo.users[k].ToCustomJson(), now))
    ensures r.Ok? ==> r.value.user.failedLoginAttempts == 0 && r.value.user.accountLockedUntil == None
    ensures r.Ok? ==> r.value.user.lastLogin == now
  {
    var found := repo.FindOneByEmail(input.email);
    if found.None? {
      return Err(InvalidCredentials);
    }
    var user := found.value;
    if user.IsAccountLocked(now) {
      return Err(AccountLocked);
    }
    var isPasswordValid := PasswordUtils.VerifyPassword(crypto, input.password, user.passwordHash, user.salt);
    if !isPasswordValid {
      user.IncrementFailedLoginAttempts(now);
      return Err(InvalidCredentials);
    }
    user.ResetFailedLoginAttempts();
    user.UpdateLastLogin(now);
    var token := PasswordUtils.GenerateJwtToken(crypto, config, user.id, user.email);
    var json := user.ToCustomJson();
    r := Ok(AuthResponse(token, ToGraphQLUser(json, now)));
  }
}
