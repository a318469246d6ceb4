/**
 * The user repository: the user collection as a map from `_id` to document, with the
 * collection's `unique` indexes on e-mail and username kept as an invariant of the map.
 */
module UserRepository {
  import opened Wrappers
  import opened AuthErrors
  import opened UserModel
  import PasswordUtils

  /** The user as the GraphQL layer returns it. */
  datatype PublicUser = PublicUser(
    id: string,
    email: string,
    username: string,
    isVerified: bool,
    isActive: bool,
    avatarUrl: string,
    roles: seq<string>,
    twoFactorEnabled: bool,
    lastPasswordChange: int,
    failedLoginAttempts: int,
    accountLockedUntil: Option<int>,
    lastLogin: int,
    createdAt: int,
    updatedAt: int)

  /**
   * The mapping from `toCustomJSON` to the GraphQL user that `findById`, `save` and `login`
   * each write out: the counter and lock are reported as 0 and null whatever the record
   * holds, and a missing last-login time is reported as `now`.
   */
  function ToGraphQLUser(json: UserJson, now: int): (user: PublicUser)
    ensures user.failedLoginAttempts == 0 && user.accountLockedUntil == None
    ensures user.lastLogin == if json.lastLogin.Some? then json.lastLogin.value else now
    ensures user.id == json.id && user.email == json.email && user.roles == json.roles
  {
    PublicUser(json.id, json.email, json.username, json.isVerified, json.isActive, json.avatarUrl,
               json.roles, json.twoFactorEnabled, json.lastPasswordChange, 0, None,
               if json.lastLogin.Some? then json.lastLogin.value else now,
               json.createdAt, json.updatedAt)
  }

  /** What `save` is given. `roles` may be absent; `isPreHashed` says whether the client hashed the password. */
  datatype UserInput = UserInput(
    email: string,
    username: string,
    password: string,
    roles: Option<seq<string>>,
    isPreHashed: bool)

  /** Some stored document has this e-mail address. */
  predicate EmailTaken(users: map<string, UserDocument>, email: string)
  {
    exists k :: k in users && users[k].email == email
  }

  /** Some stored document has this username. */
  predicate UsernameTaken(users: map<string, UserDocument>, username: string)
  {
    exists k :: k in users && users[k].username == username
  }

  /** The roles `save` stores: `input.roles || ['USER']` (an empty array is kept, since it is truthy). */
  function RolesFor(input: UserInput): seq<string>
  {
    if input.roles.Some? then input.roles.value else DefaultRoles
  }

  class Repository {
    var users: map<string, UserDocument>

    /** Each document is stored under its own id; e-mail addresses and usernames are unique. */
    ghost predicate Valid()
      reads this
    {
      && (forall k :: k in users ==> users[k].id == k)
      && (forall k1, k2 :: k1 in users && k2 in users && users[k1].email == users[k2].email ==> k1 == k2)
      && (forall k1, k2 :: k1 in users && k2 in users && users[k1].username == users[k2].username ==> k1 == k2)
    }

    /** The lockout fields of every stored document. */
    ghost function Rows(): map<string, LoginState>
      reads this, users.Values
    {
      map k | k in users :: users[k].State()
    }

    /** An empty collection. */
    constructor ()
      ensures Valid() && users == map[]
    {
      users := map[];
    }

    /** `User.findOne({ email })`. */
    method FindOneByEmail(email: string) returns (found: Option<UserDocument>)
      requires Valid()
      ensures found.None? <==> !EmailTaken(users, email)
      ensures found.Some? ==> found.value.id in users && users[found.value.id] == found.value
      ensures found.Some? ==> found.value.email == email
    {
      if k :| k in users && users[k].email == email {
        found := Some(users[k]);
      } else {
        found := None;
      }
    }

    /** `findById`: the GraphQL view of the document with this id, or "User not found". */
    method FindById(id: string, now: int) returns (r: Result<PublicUser, AuthError>)
      requires Valid()
      ensures id !in users ==> r == Err(UserNotFound)
      ensures id in users ==> r == Ok(ToGraphQLUser(users[id].ToCustomJson(), now))
      ensures r.Ok? ==> r.value.id == id
      ensures r.Ok? ==> r.value.failedLoginAttempts == 0 && r.value.accountLockedUntil == None
    {
      if id !in users {
        return Err(UserNotFound);
      }
      var json := users[id].ToCustomJson();
      r := Ok(ToGraphQLUser(json, now));
    }

    /**
     * `save` at time `now`, with `newId` the `_id` the new document receives and `random`
     * the bytes the salt is made from. The e-mail check comes first, then the username
     * check; only then are the salt and hash computed and the document validated and inserted.
     */
    method Save(input: UserInput, newId: string, random: PasswordUtils.Bytes16,
                crypto: PasswordUtils.Crypto, now: int)
      returns (r: Result<PublicUser, AuthError>)
      requires Valid()
      modifies this
      ensures Valid()
      ensures EmailTaken(old(users), input.email) ==> r == Err(DuplicateEmail)
      ensures !EmailTaken(old(users), input.email) && UsernameTaken(old(users), input.username) ==>
                r == Err(DuplicateUsername)
      ensures !EmailTaken(old(users), input.email) && !UsernameTaken(old(users), input.username) ==>
                if !SchemaValid(input.email, input.username, RolesFor(input)) then r == Err(ValidationFailed)
                else if newId in old(users) then r == Err(DuplicateKey)
                else r.Ok?
      ensures r.Err? ==> users == old(users)
      ensures r.Ok? ==>
                && newId !in old(users)
                && users.Keys == old(users).Keys + {newId}
                && |users| == |old(users)| + 1
                && (forall k :: k in old(users) ==> users[k] == old(users)[k])
                && fresh(users[newId])
      ensures r.Ok? ==>
                var doc := users[newId];
                && doc.email == input.email && doc.username == input.username
                && doc.salt == PasswordUtils.GenerateSalt(random)
                && doc.passwordHash == PasswordUtils.HashPassword(crypto, input.password, doc.salt)
                && doc.roles == RolesFor(input)
                && doc.State() == LoginState(0, None, Some(now))
                && doc.isActive && !doc.isVerified
                && r.value == ToGraphQLUser(doc.ToCustomJson(), now)
    {
      if k :| k in users && users[k].email == input.email {
        return Err(DuplicateEmail);
      }
      if k :| k in users && users[k].username == input.username {
        return Err(DuplicateUsername);
      }
      var salt := PasswordUtils.GenerateSalt(random);
      var passwordHash := if input.isPreHashed
        then PasswordUtils.HashPassword(crypto, input.password, salt)
        else PasswordUtils.HashPassword(crypto, input.password, salt);
      var roles := RolesFor(input);
      if !SchemaValid(input.email, input.username, roles) {
        return Err(ValidationFailed);
      }
      if newId in users {
        return Err(DuplicateKey);
      }
      var doc := new UserDocument(newId, input.email, input.username, passwordHash, salt, roles,
                                  Some(now), now);
      users := users[newId := doc];
      var json := doc.ToCustomJson();
      r := Ok(ToGraphQLUser(json, now));
    }
  }
}
