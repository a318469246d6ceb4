/**
 * The request middleware: reading the bearer token out of the `Authorization` header,
 * verifying it without ever throwing, and the authorisation check that loads the user,
 * records it in the request context and tests its roles. The client's header builder is
 * here too, as the inverse of the parser.
 */
module AuthMiddleware {
  import opened Wrappers
  import opened UserModel
  import opened UserRepository
  import PasswordUtils

  /** `String.prototype.split(sep)` with a one-character separator: every occurrence cuts, empty parts included. */
  function Split(s: string, sep: char): (parts: seq<string>)
    ensures |parts| >= 1
    ensures forall i :: 0 <= i < |parts| ==> sep !in parts[i]
    decreases |s|
  {
    if |s| == 0 then [""]
    else
      var rest := Split(s[1..], sep);
      if s[0] == sep then [""] + rest
      else [[s[0]] + rest[0]] + rest[1..]
  }

  /** `Array.prototype.join(sep)`: the reference inverse of `Split`. */
  function Join(parts: seq<string>, sep: char): string
    requires |parts| >= 1
    decreases |parts|
  {
    if |parts| == 1 then parts[0] else parts[0] + [sep] + Join(parts[1..], sep)
  }

  /** Joining the parts of a split gives back the string. */
  lemma {:induction false} JoinSplit(s: string, sep: char)
    ensures Join(Split(s, sep), sep) == s
    decreases |s|
  {
    if |s| > 0 {
      var rest := Split(s[1..], sep);
      JoinSplit(s[1..], sep);
      if s[0] == sep {
        assert Split(s, sep) == [""] + rest;
        assert ([""] + rest)[1..] == rest;
        assert s == [sep] + s[1..];
      } else {
        var parts := [[s[0]] + rest[0]] + rest[1..];
        assert Split(s, sep) == parts;
        if |rest| == 1 {
          assert s == [s[0]] + s[1..];
        } else {
          assert parts[1..] == rest[1..];
          assert Join(rest, sep) == rest[0] + [sep] + Join(rest[1..], sep);
          assert s == [s[0]] + s[1..];
        }
      }
    }
  }

  /** A string without the separator splits into itself alone. */
  lemma {:induction false} SplitWithoutSeparator(s: string, sep: char)
    requires sep !in s
    ensures Split(s, sep) == [s]
    decreases |s|
  {
    if |s| > 0 {
      assert sep !in s[1..];
      SplitWithoutSeparator(s[1..], sep);
      assert s == [s[0]] + s[1..];
    }
  }

  /** Two separator-free strings joined by one separator split back into those two. */
  lemma {:induction false} SplitTwo(a: string, b: string, sep: char)
    requires sep !in a && sep !in b
    ensures Split(a + [sep] + b, sep) == [a, b]
    decreases |a|
  {
    var s := a + [sep] + b;
    if |a| == 0 {
      assert s == [sep] + b;
      assert s[1..] == b;
      SplitWithoutSeparator(b, sep);
    } else {
      assert s[0] == a[0];
      assert s[1..] == a[1..] + [sep] + b;
      assert sep !in a[1..];
      SplitTwo(a[1..], b, sep);
      assert [a[0]] + a[1..] == a;
    }
  }

  /**
   * `extractToken`: no header, or an empty one, gives null; otherwise the header must split
   * on single spaces into exactly two parts, the first exactly `Bearer`, and the second is
   * the token (which may be empty).
   */
  function ExtractToken(header: Option<string>): (token: Option<string>)
    ensures header.None? || header == Some("") ==> token.None?
    ensures token.Some? ==> header == Some("Bearer " + token.value) && ' ' !in token.value
  {
    if header.None? || header.value == "" then None
    else
      var parts := Split(header.value, ' ');
      if |parts| != 2 || parts[0] != "Bearer" then None
      else
        JoinSplit(header.value, ' ');
        assert parts[1..] == [parts[1]];
        assert Join(parts, ' ') == parts[0] + [' '] + parts[1];
        assert "Bearer" + [' '] + parts[1] == "Bearer " + parts[1];
        Some(parts[1])
  }

  /** The parser accepts exactly the headers `Bearer <t>` with `t` free of spaces, and returns that `t`. */
  lemma ExtractTokenExactly(header: Option<string>, t: string)
    ensures ExtractToken(header) == Some(t) <==> header == Some("Bearer " + t) && ' ' !in t
  {
    if header == Some("Bearer " + t) && ' ' !in t {
      assert "Bearer " + t == "Bearer" + [' '] + t;
      SplitTwo("Bearer", t, ' ');
    }
  }

  /** The client's header: `Bearer <token>` when a non-empty token is stored, and the empty string otherwise. */
  function BearerHeader(stored: Option<string>): string
  {
    if stored.Some? && stored.value != "" then "Bearer " + stored.value else ""
  }

  /**
   * Round trip between client and server: the token the client stores comes back out of the
   * header it builds exactly when the token is non-empty and has no space in it; with no
   * token stored, nothing comes out.
   */
  lemma HeaderRoundTrip(stored: Option<string>)
    ensures stored.Some? ==>
              (ExtractToken(Some(BearerHeader(stored))) == stored <==> stored.value != "" && ' ' !in stored.value)
    ensures stored.None? || stored == Some("") ==> ExtractToken(Some(BearerHeader(stored))).None?
  {
    if stored.Some? {
      ExtractTokenExactly(Some(BearerHeader(stored)), stored.value);
    }
  }

  /** `verifyToken`: the decoded claims, or null for any verification failure; it never throws. */
  function VerifyToken(crypto: PasswordUtils.Crypto, token: string, secret: string): (claims: Option<Claims>)
    ensures claims.Some? <==> crypto.jwtVerify(token, secret).Ok?
    ensures claims.Some? ==> claims.value == crypto.jwtVerify(token, secret).value
  {
    match crypto.jwtVerify(token, secret)
    case Ok(c) => Some(c)
    case Err(_) => None
  }

  type Claims = PasswordUtils.Claims

  /**
   * The user a request authenticates as: a non-empty bearer token that verifies, naming the
   * id of a stored, active user. Absent at the first of these that fails.
   */
  function AuthenticatedUser(header: Option<string>, crypto: PasswordUtils.Crypto, secret: string,
                             users: map<string, UserDocument>): (user: Option<UserDocument>)
    ensures user.Some? ==> user.value in users.Values && user.value.isActive
    ensures user.Some? ==>
              var t := ExtractToken(header);
              && t.Some? && t.value != ""
              && crypto.jwtVerify(t.value, secret).Ok?
              && crypto.jwtVerify(t.value, secret).value.userId.Some?
              && crypto.jwtVerify(t.value, secret).value.userId.value in users
              && user.value == users[crypto.jwtVerify(t.value, secret).value.userId.value]
    ensures var t := ExtractToken(header);
            t.Some? && t.value != "" && crypto.jwtVerify(t.value, secret).Ok?
            && crypto.jwtVerify(t.value, secret).value.userId.Some?
            && crypto.jwtVerify(t.value, secret).value.userId.value in users
            && users[crypto.jwtVerify(t.value, secret).value.userId.value].isActive
            ==> user == Some(users[crypto.jwtVerify(t.value, secret).value.userId.value])
  {
    var token := ExtractToken(header);
    if token.None? || token.value == "" then None
    else
      var decoded := VerifyToken(crypto, token.value, secret);
      if decoded.None? || decoded.value.userId.None? || decoded.value.userId.value !in users then None
      else
        var user := users[decoded.value.userId.value];
        if !user.isActive then None else Some(user)
  }

  /**
   * Any non-empty, space-free token sent as `Bearer <t>` that the verifier decodes to the id
   * of a stored, active user authenticates exactly that user; a stored but inactive user is
   * never authenticated.
   */
  lemma TokenUserAuthenticates(crypto: PasswordUtils.Crypto, secret: string, users: map<string, UserDocument>,
                               t: string, id: string)
    requires t != "" && ' ' !in t
    requires crypto.jwtVerify(t, secret).Ok? && crypto.jwtVerify(t, secret).value.userId == Some(id)
    requires id in users
    ensures users[id].isActive ==> AuthenticatedUser(Some("Bearer " + t), crypto, secret, users) == Some(users[id])
    ensures !users[id].isActive ==> AuthenticatedUser(Some("Bearer " + t), crypto, secret, users) == None
  {
    ExtractTokenExactly(Some("Bearer " + t), t);
  }

  /** The role test: nothing required, or some required role among the user's roles. */
  predicate HasRequiredRole(user: UserDocument, roles: seq<string>)
  {
    |roles| == 0 || exists i :: 0 <= i < |roles| && roles[i] in user.roles
  }

  /** The request context: the incoming `Authorization` header and the user the checker records. */
  class Context {
    const authorization: Option<string>
    var user: Option<UserDocument>

    constructor (authorization: Option<string>)
      ensures this.authorization == authorization && user == None
    {
      this.authorization := authorization;
      user := None;
    }
  }

  /**
   * `authChecker`: false for a missing token, a token that fails to verify, an unknown user
   * or an inactive one; otherwise the user is recorded in the context (even when the role
   * test then fails) and the answer is the role test.
   */
  method AuthChecker(context: Context, repo: Repository, crypto: PasswordUtils.Crypto, secret: string,
                     roles: seq<string>)
    returns (allowed: bool)
    modifies context
    ensures var found := AuthenticatedUser(context.authorization, crypto, secret, repo.users);
            && (allowed <==> found.Some? && HasRequiredRole(found.value, roles))
            && context.user == (if found.Some? then found else old(context.user))
  {
    var token := ExtractToken(context.authorization);
    if token.None? || token.value == "" {
      return false;
    }
    var decoded := VerifyToken(crypto, token.value, secret);
    if decoded.None? {
      return false;
    }
    var userId := decoded.value.userId;
    if userId.None? || userId.value !in repo.users {
      return false;
    }
    var user := repo.users[userId.value];
    if !user.isActive {
      return false;
    }
    context.user := Some(user);
    if |roles| == 0 {
      return true;
    }
    allowed := exists i :: 0 <= i < |roles| && roles[i] in user.roles;
  }

  /**
   * A token the server signs for a stored, active user, sent back in the header the client
   * builds, authenticates that user, provided the token is non-empty without spaces and the
   * verifier decodes the user id the token was signed for.
   */
  lemma IssuedTokenAuthenticates(crypto: PasswordUtils.Crypto, config: PasswordUtils.Config,
                                 users: map<string, UserDocument>, id: string, secret: string)
    requires id in users && users[id].isActive
    requires PasswordUtils.GenerateJwtToken(crypto, config, id, users[id].email) != ""
    requires ' ' !in PasswordUtils.GenerateJwtToken(crypto, config, id, users[id].email)
    requires crypto.jwtVerify(PasswordUtils.GenerateJwtToken(crypto, config, id, users[id].email), secret).Ok?
    requires crypto.jwtVerify(PasswordUtils.GenerateJwtToken(crypto, config, id, users[id].email), secret).value.userId
             == Some(id)
    ensures AuthenticatedUser(Some(BearerHeader(Some(PasswordUtils.GenerateJwtToken(crypto, config, id, users[id].email)))),
                              crypto, secret, users) == Some(users[id])
  {
    HeaderRoundTrip(Some(PasswordUtils.GenerateJwtToken(crypto, config, id, users[id].email)));
  }
}
