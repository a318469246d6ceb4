/**
 * The user record and its account-lockout bookkeeping. The record is a class; the three
 * fields the core writes in place (`failedLoginAttempts`, `accountLockedUntil`,
 * `lastLogin`) are variables and every other field is fixed once the record exists.
 * Times are milliseconds since the epoch, and the current time is a parameter `now`.
 */
module UserModel {
  import opened Wrappers

  /** The number of failures at which an account is locked. */
  const MaxFailedLoginAttempts: nat := 5

  /** How long a lock lasts: 30 minutes. */
  const LockDurationMs: int := 30 * 60 * 1000

  /** The schema's bounds on a username's length. */
  const UsernameMinLength: nat := 3
  const UsernameMaxLength: nat := 30

  /** The roles the schema admits, and the roles a record gets by default. */
  const AllowedRoles: set<string> := {"ADMIN", "USER"}
  const DefaultRoles: seq<string> := ["USER"]

  /** The part of a user record that login attempts read and write. */
  datatype LoginState = LoginState(
    failedLoginAttempts: nat,
    accountLockedUntil: Option<int>,
    lastLogin: Option<int>)

  /** `isAccountLocked`: a lock time is set and lies strictly in the future. */
  predicate IsLocked(s: LoginState, now: int)
  {
    s.accountLockedUntil.Some? && s.accountLockedUntil.value > now
  }

  /** `incrementalFailedLoginAttempts`: count one more failure; from the fifth on, lock for 30 minutes. */
  function AfterFailure(s: LoginState, now: int): LoginState
  {
    var count := s.failedLoginAttempts + 1;
    s.(failedLoginAttempts := count,
       accountLockedUntil := if count >= MaxFailedLoginAttempts then Some(now + LockDurationMs)
                             else s.accountLockedUntil)
  }

  /** `resetFailedLoginAttempts`: no failures and no lock. */
  function AfterReset(s: LoginState): LoginState
  {
    s.(failedLoginAttempts := 0, accountLockedUntil := None)
  }

  /** `updateLastLogin`: record the time of this login. */
  function AfterLastLogin(s: LoginState, now: int): LoginState
  {
    s.(lastLogin := Some(now))
  }

  /**
   * A failure adds exactly one to the counter and leaves the last-login time alone; below
   * the threshold the lock time is untouched, and at or above it the account is locked
   * until exactly 30 minutes from now.
   */
  lemma FailureCounts(s: LoginState, now: int)
    ensures AfterFailure(s, now).failedLoginAttempts == s.failedLoginAttempts + 1
    ensures AfterFailure(s, now).lastLogin == s.lastLogin
    ensures s.failedLoginAttempts + 1 < MaxFailedLoginAttempts ==>
              AfterFailure(s, now).accountLockedUntil == s.accountLockedUntil
    ensures s.failedLoginAttempts + 1 >= MaxFailedLoginAttempts ==>
              AfterFailure(s, now).accountLockedUntil == Some(now + 1800000)
  {
  }

  /**
   * A lock set by a failure at `now` holds at `t` exactly while `t` is less than 30 minutes
   * after `now`; below the threshold a failure does not change whether the account is locked.
   */
  lemma LockWindow(s: LoginState, now: int, t: int)
    ensures s.failedLoginAttempts + 1 >= MaxFailedLoginAttempts ==>
              (IsLocked(AfterFailure(s, now), t) <==> t < now + LockDurationMs)
    ensures s.failedLoginAttempts + 1 < MaxFailedLoginAttempts ==>
              (IsLocked(AfterFailure(s, now), t) <==> IsLocked(s, t))
  {
  }

  /**
   * The counter is not cleared when a lock runs out, so once it has reached the threshold a
   * single further failure, even on an account whose lock has expired, locks it again for
   * the next 30 minutes.
   */
  lemma ExpiredLockRelocksOnNextFailure(s: LoginState, now: int, t: int)
    requires s.failedLoginAttempts >= MaxFailedLoginAttempts
    requires !IsLocked(s, now)
    requires now <= t < now + LockDurationMs
    ensures IsLocked(AfterFailure(s, now), t)
    ensures AfterFailure(s, now).failedLoginAttempts > MaxFailedLoginAttempts
  {
  }

  /** After a reset the account has no failures and is unlocked at every time; a second reset changes nothing. */
  lemma ResetClears(s: LoginState, t: int)
    ensures AfterReset(s).failedLoginAttempts == 0
    ensures AfterReset(s).accountLockedUntil == None
    ensures !IsLocked(AfterReset(s), t)
    ensures AfterReset(s).lastLogin == s.lastLogin
    ensures AfterReset(AfterReset(s)) == AfterReset(s)
  {
  }

  /** `toCustomJSON`: the record without `passwordHash`, `salt`, `failedLoginAttempts` and `accountLockedUntil`, plus `id`. */
  datatype UserJson = UserJson(
    id: string,
    email: string,
    username: string,
    isVerified: bool,
    isActive: bool,
    avatarUrl: string,
    roles: seq<string>,
    twoFactorEnabled: bool,
    lastPasswordChange: int,
    lastLogin: Option<int>,
    createdAt: int,
    updatedAt: int)

  /**
   * A string's JavaScript `length`: the number of UTF-16 code units, which is one for each
   * character up to U+FFFF and two (a surrogate pair) for each character above it.
   */
  function Utf16Length(s: string): (n: nat)
    ensures |s| <= n <= 2 * |s|
    ensures (forall i :: 0 <= i < |s| ==> s[i] as int <= 0xFFFF) ==> n == |s|
    ensures (forall i :: 0 <= i < |s| ==> s[i] as int > 0xFFFF) ==> n == 2 * |s|
    decreases |s|
  {
    if |s| == 0 then 0
    else (if s[0] as int > 0xFFFF then 2 else 1) + Utf16Length(s[1..])
  }

  /** The schema's validators that the model keeps: e-mail required, username length in code units, role names. */
  predicate SchemaValid(email: string, username: string, roles: seq<string>)
  {
    && |email| > 0
    && UsernameMinLength <= Utf16Length(username) <= UsernameMaxLength
    && forall i :: 0 <= i < |roles| ==> roles[i] in AllowedRoles
  }

  /**
   * The username bound counts code units: a username made only of characters above U+FFFF
   * (emoji, say) passes only with 2 to 15 characters, so 16 of them are refused.
   */
  lemma UsernameBoundCountsCodeUnits(email: string, username: string, roles: seq<string>)
    requires forall i :: 0 <= i < |username| ==> username[i] as int > 0xFFFF
    ensures SchemaValid(email, username, roles) ==> 2 <= |username| <= 15
    ensures |username| == 16 ==> !SchemaValid(email, username, roles)
  {
  }

  /** A stored user document. `id` is `_id` as a string. */
  class UserDocument {
    const id: string
    const email: string
    const username: string
    const passwordHash: string
    const salt: string
    const isVerified: bool
    const isActive: bool
    const avatarUrl: string
    const roles: seq<string>
    const twoFactorEnabled: bool
    const lastPasswordChange: int
    const createdAt: int
    const updatedAt: int
    var failedLoginAttempts: nat
    var accountLockedUntil: Option<int>
    var lastLogin: Option<int>

    /**
     * `new User({...})` at time `now`: the given fields, and the schema's defaults for the
     * rest (not verified, active, no avatar, no second factor, no failures, no lock).
     */
    constructor (id: string, email: string, username: string, passwordHash: string, salt: string,
                 roles: seq<string>, lastLogin: Option<int>, now: int)
      ensures this.id == id && this.email == email && this.username == username
      ensures this.passwordHash == passwordHash && this.salt == salt && this.roles == roles
      ensures !isVerified && isActive && avatarUrl == "" && !twoFactorEnabled
      ensures lastPasswordChange == now && createdAt == now && updatedAt == now
      ensures State() == LoginState(0, None, lastLogin)
    {
      this.id := id;
      this.email := email;
      this.username := username;
      this.passwordHash := passwordHash;
      this.salt := salt;
      this.roles := roles;
      isVerified := false;
      isActive := true;
      avatarUrl := "";
      twoFactorEnabled := false;
      lastPasswordChange := now;
      createdAt := now;
      updatedAt := now;
      failedLoginAttempts := 0;
      accountLockedUntil := None;
      this.lastLogin := lastLogin;
    }

    /** The lockout fields as a value. */
    function State(): LoginState
      reads this
    {
      LoginState(failedLoginAttempts, accountLockedUntil, lastLogin)
    }

    /** `isAccountLocked` at time `now`. */
    predicate IsAccountLocked(now: int)
      reads this
    {
      IsLocked(State(), now)
    }

    /** `incrementalFailedLoginAttempts` at time `now`. */
    method IncrementFailedLoginAttempts(now: int)
      modifies this
      ensures State() == AfterFailure(old(State()), now)
      ensures failedLoginAttempts == old(failedLoginAttempts) + 1
    {
      failedLoginAttempts := failedLoginAttempts + 1;
      if failedLoginAttempts >= MaxFailedLoginAttempts {
        accountLockedUntil := Some(now + LockDurationMs);
      }
    }

    /** `resetFailedLoginAttempts`. */
    method ResetFailedLoginAttempts()
      modifies this
      ensures State() == AfterReset(old(State()))
      ensures failedLoginAttempts == 0 && accountLockedUntil == None
      ensures lastLogin == old(lastLogin)
    {
      failedLoginAttempts := 0;
      accountLockedUntil := None;
    }

    /** `updateLastLogin` at time `now`: only `lastLogin` changes. */
    method UpdateLastLogin(now: int)
      modifies this
      ensures State() == AfterLastLogin(old(State()), now)
      ensures lastLogin == Some(now)
      ensures failedLoginAttempts == old(failedLoginAttempts)
      ensures accountLockedUntil == old(accountLockedUntil)
    {
      lastLogin := Some(now);
    }

    /** `toCustomJSON`. */
    function ToCustomJson(): (json: UserJson)
      reads this
      ensures json.id == id && json.email == email && json.lastLogin == lastLogin
    {
      UserJson(id, email, username, isVerified, isActive, avatarUrl, roles, twoFactorEnabled,
               lastPasswordChange, lastLogin, createdAt, updatedAt)
    }
  }

  /**
   * The projection cannot leak the secret fields: two documents that agree on everything
   * except `passwordHash`, `salt`, `failedLoginAttempts` and `accountLockedUntil` project to
   * the same value.
   */
  lemma ProjectionHidesSecrets(a: UserDocument, b: UserDocument)
    requires a.id == b.id && a.email == b.email && a.username == b.username
    requires a.isVerified == b.isVerified && a.isActive == b.isActive && a.avatarUrl == b.avatarUrl
    requires a.roles == b.roles && a.twoFactorEnabled == b.twoFactorEnabled
    requires a.lastPasswordChange == b.lastPasswordChange && a.lastLogin == b.lastLogin
    requires a.createdAt == b.createdAt && a.updatedAt == b.updatedAt
    ensures a.ToCustomJson() == b.ToCustomJson()
  {
  }
}
