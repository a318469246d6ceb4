# Authentication app: a verified model of the credential-check core

This project models the core of a small full-stack authentication application:

- the server's user record and its account-lockout bookkeeping;
- the user repository, with `save` and `findById`;
- the `register` and `login` service;
- the password and token helpers;
- the bearer-token middleware and the `authChecker` decision chain;
- on the client, the authentication reducer, the hexadecimal encoding of a SHA-256 digest, and the stand-in authentication service.

Each server source file is one module:

- `UserModel` (`user_model.dfy`):
  - The user document is a class.
  - The three lockout fields that `login` writes in place (`failedLoginAttempts`, `accountLockedUntil`, `lastLogin`) are variables. Every other field is fixed once the document exists.
  - The class methods are specified by a pure state machine over `LoginState` (`AfterFailure`, `AfterReset`, `AfterLastLogin`, `IsLocked`).
- `UserRepository` (`user_repository.dfy`):
  - The collection is a class holding a map from `_id` to document.
  - The schema's `unique` indexes on e-mail and username are the map's invariant `Valid()`.
- `AuthService` (`auth_service.dfy`):
  - `register` and `login` are methods over the repository.
  - `LoginStep` is the pure decision `login` takes on a found account. `Replay` runs a series of attempts, and the lockout scenarios are proved on it.
- `PasswordUtils` (`password_utils.dfy`):
  - The hash, salt, token and JWT helpers.
  - PBKDF2-SHA512 and JWT signing and verification are fields of a `Crypto` value.
  - The bytes `crypto.randomBytes` would return are parameters.
- `AuthMiddleware` (`auth_middleware.dfy`):
  - `extractToken`, together with the client's header builder, its inverse.
  - `verifyToken`.
  - `authChecker`, a method that writes the request context.

The client side:

- `Hex` (`hex.dfy`): the digest-to-lowercase-hex encoder written as the source writes it (`toString(16)`, then `padStart(2, '0')`, then `join`). A reference decoder proves it injective and order-preserving. The server's `Buffer.toString('hex')` produces the same text, so the server helpers reuse it.
- `AuthReducer` (`auth_reducer.dfy`): the reducer as a pure function over `AuthState`, with its invariant "signed in exactly when a user is held".
- `MockAuthService` (`mock_auth_service.dfy`): the stand-in `login`, `signup` and `resetPassword`. It also gives the actions the client dispatches around a login or a sign-up.

Time is an integer `now` in milliseconds, passed in as a parameter. A thrown error is an `Err` of a `Result`.

The lock check runs before the failure is counted (server/src/services/auth.service.ts:40-57). So the fifth wrong password is still answered "Invalid email or password" and only sets the lock; the sixth attempt is the first to get the lock message. `AuthService.FifthFailureLocksSixthIsRefused` proves this.

## Model

| member | source | states |
|---|---|---|
| `UserModel.FailureCounts` | server/src/models/user.ts:106-117 | A failure adds exactly one to the counter and leaves the last login alone. Below five the lock time is unchanged; from five on it becomes now + 1800000 ms. |
| `UserModel.LockWindow` | server/src/models/user.ts:101-103 | A lock set at `now` holds at `t` exactly when `t < now + 30 min` (locked means a lock time that is strictly later than the current time). Below the threshold, a failure does not change whether the account is locked. |
| `UserModel.ExpiredLockRelocksOnNextFailure` | server/src/models/user.ts:109-114 | The counter is not cleared when a lock expires, so with five or more failures one more failure locks the account again for the next 30 minutes. |
| `UserModel.ResetClears` | server/src/models/user.ts:120-126 | A reset leaves no failures and no lock, so the account is unlocked at every time; the last login is kept; resetting twice equals resetting once. |
| `UserModel.Utf16Length` | server/src/models/user.ts:22-23 | The username length the schema bounds is JavaScript's `length`: between the number of characters and twice it, equal to it when no character lies above U+FFFF, and twice it when every character does. |
| `UserModel.UsernameBoundCountsCodeUnits` | server/src/models/user.ts:22-23 | A username made only of characters above U+FFFF passes the 3..30 bound only with 2 to 15 characters; 16 of them are refused. |
| `UserModel.UserDocument.constructor` | server/src/models/user.ts:33-69 | A new document has the given fields and the schema defaults: not verified, active, empty avatar, no second factor, counter 0, no lock. |
| `UserModel.UserDocument.IncrementFailedLoginAttempts` | server/src/models/user.ts:106-117 | The lockout fields become `AfterFailure` of the old ones; the counter grows by exactly one. |
| `UserModel.UserDocument.ResetFailedLoginAttempts` | server/src/models/user.ts:120-126 | The counter becomes 0, the lock is cleared and the last login is untouched. |
| `UserModel.UserDocument.UpdateLastLogin` | server/src/models/user.ts:128-134 | Only `lastLogin` changes, and it becomes `now`. |
| `UserModel.UserDocument.ToCustomJson` | server/src/models/user.ts:87-98 | The projection's `id` is the document's id. It carries the e-mail and last login, and has no field for the hash, salt, counter or lock. |
| `UserModel.ProjectionHidesSecrets` | server/src/models/user.ts:93-96 | Two documents that differ only in hash, salt, counter and lock have the same projection. |
| `UserRepository.ToGraphQLUser` | server/src/repositories/user.repository.ts:20-35 | The GraphQL user always reports counter 0 and no lock. A missing last login is reported as `now`. Id, e-mail and roles come from the projection. |
| `UserRepository.Repository.constructor` | server/src/models/user.ts:9-20 | An empty collection satisfies the uniqueness invariant. |
| `UserRepository.Repository.FindOneByEmail` | server/src/services/auth.service.ts:34 | Finds a document exactly when one with that e-mail is stored, and returns the stored document. |
| `UserRepository.Repository.FindById` | server/src/repositories/user.repository.ts:11-36 | An unknown id gives "User not found". A known id gives the GraphQL view of that document, with counter 0 and no lock. |
| `UserRepository.Repository.Save` | server/src/repositories/user.repository.ts:39-94 | Checks run in order: a taken e-mail fails with DuplicateEmail (so it wins over a username clash), then a taken username fails with DuplicateUsername, then schema validation, then an id clash. On failure the store is unchanged. On success the store grows by exactly the new document and uniqueness is preserved. The new document has the stored salt and `hashPassword(password, salt)` as its hash, the given roles or `['USER']`, counter 0, no lock and last login `now`. |
| `AuthService.LockedRefusesAnyPassword` | server/src/services/auth.service.ts:40-44 | On a locked account, any password is refused with the lock message and the lockout fields are unchanged. |
| `AuthService.WrongPasswordCounts` | server/src/services/auth.service.ts:47-57 | On an unlocked account, a wrong password counts one failure and gets the same message as an unknown e-mail. |
| `AuthService.RightPasswordClears` | server/src/services/auth.service.ts:59-63 | On an unlocked account, the right password gives success, counter 0, no lock and last login `now`. |
| `AuthService.WrongPasswordsBelowThreshold` | server/src/services/auth.service.ts:47-57 | A run of wrong passwords that stays below five is answered "Invalid email or password" every time, counts each one, and sets no lock. |
| `AuthService.FifthFailureLocksSixthIsRefused` | server/src/services/auth.service.ts:40-57 | From a fresh counter, five wrong passwords are each answered "Invalid email or password" and lock the account until 30 minutes after the fifth. A sixth attempt inside that window gets the lock message whatever the password. |
| `AuthService.ReplaySplit` | server/src/services/auth.service.ts:31-57 | Replaying two series one after the other equals replaying their concatenation. |
| `AuthService.ExpiredLockRelocks` | server/src/services/auth.service.ts:40-57 | After a lock expires with the counter at five or more, the next wrong password is answered "Invalid email or password". The next attempt within 30 minutes is refused with the lock message. |
| `AuthService.Register` | server/src/services/auth.service.ts:16-24 | Forwards to `save` with roles exactly `['USER']` whatever is submitted. A taken e-mail gives DuplicateEmail, then a taken username DuplicateUsername. Otherwise an input that passes the schema with a free id always creates the user. The new document has the generated salt, `hashPassword(password, salt)` as its hash, counter 0, no lock and last login `now`. On failure the store is unchanged. |
| `AuthService.Login` | server/src/services/auth.service.ts:31-91 | An unknown e-mail gives "Invalid email or password" and changes nothing. Otherwise only the found document's lockout fields change, as `LoginStep` says. A token is returned only on success, signed for exactly that document's id and e-mail. The returned user has counter 0, no lock and last login `now`. |
| `PasswordUtils.GenerateSalt` | server/src/utils/auth.ts:9-11 | The salt is 32 lowercase hex characters that decode to the 16 random bytes. |
| `PasswordUtils.GenerateToken` | server/src/utils/auth.ts:43-45 | The token is 64 lowercase hex characters that decode to the 32 random bytes. |
| `PasswordUtils.HashPassword` | server/src/utils/auth.ts:19-21 | The hash is 128 characters and decodes to the 64-byte PBKDF2 key of the password and salt. |
| `PasswordUtils.VerifyOwnHash` | server/src/utils/auth.ts:30-37 | A password always verifies against the hash made from it with the same salt. |
| `PasswordUtils.VerifyAgainstOtherPassword` | server/src/utils/auth.ts:30-37 | A presented password verifies against a stored password's hash exactly when PBKDF2 derives the same key from both. |
| `PasswordUtils.VerifiedHashIsWellFormed` | server/src/utils/auth.ts:19-21 | Only a hash of 128 lowercase hexadecimal characters can ever verify. |
| `PasswordUtils.DefaultExpiresIn` | server/src/utils/auth.ts:53-57 | With the default expiry of 15 minutes, the number handed to the signer is 15 × 60 × 1000 = 900000. |
| `AuthMiddleware.Split` | server/src/middleware/auth.ts:17 | Splitting gives at least one part and no part contains the separator. |
| `AuthMiddleware.JoinSplit` | server/src/middleware/auth.ts:17 | Joining the parts of a split with the separator gives back the original string. |
| `AuthMiddleware.SplitWithoutSeparator` | server/src/middleware/auth.ts:17 | A string without the separator splits into itself alone. |
| `AuthMiddleware.SplitTwo` | server/src/middleware/auth.ts:17-18 | Two separator-free strings joined by one separator split back into exactly those two. |
| `AuthMiddleware.ExtractToken` | server/src/middleware/auth.ts:13-21 | A missing or empty header gives no token. A token is returned only from a header that is exactly `Bearer ` followed by that token, and the token contains no space. |
| `AuthMiddleware.ExtractTokenExactly` | server/src/middleware/auth.ts:13-21 | `extractToken` returns `t` if and only if the header is `Bearer ` followed by `t`, with no space in `t`. |
| `AuthMiddleware.HeaderRoundTrip` | client/auth-app/src/services/apolloClient.ts:18 | The token the client puts into its header comes back out of `extractToken` exactly when it is non-empty and free of spaces. With no token stored, nothing comes out. |
| `AuthMiddleware.VerifyToken` | server/src/middleware/auth.ts:24-30 | Yields claims exactly when verification succeeds, and those claims are the verified ones. Every failure gives no claims and nothing is thrown. |
| `AuthMiddleware.AuthenticatedUser` | server/src/middleware/auth.ts:37-49 | A user is produced only from a non-empty bearer token that verifies to a user id stored in the collection, and it is exactly the document with that id, which is active. Conversely, such a token naming an active stored user always produces that user. A missing or empty token, a failed verification, a missing or unknown id, or an inactive user gives none. |
| `AuthMiddleware.TokenUserAuthenticates` | server/src/middleware/auth.ts:33-49 | Any non-empty, space-free token sent as `Bearer <t>` that verifies to the id of a stored user authenticates exactly that user when it is active, and nobody when it is inactive. |
| `AuthMiddleware.Context.constructor` | server/src/middleware/auth.ts:7-10 | A fresh context carries the request's header and no user. |
| `AuthMiddleware.AuthChecker` | server/src/middleware/auth.ts:33-59 | The check passes exactly when the header authenticates an active stored user and either no role is required or some required role is among the user's. The user is recorded in the context exactly when found and active, even if the role test then fails. |
| `AuthMiddleware.IssuedTokenAuthenticates` | server/src/utils/auth.ts:53-57 | A token the server signs for a stored active user authenticates that user when it comes back in the client's header. This holds when the token is non-empty and space-free and the verifier decodes the id it was signed for. |
| `Hex.Digit` | client/auth-app/src/utils/crypto.ts:23 | Every digit `toString(16)` writes is in `[0-9a-f]`. |
| `Hex.DigitValue` | client/auth-app/src/utils/crypto.ts:23 | Reading a digit succeeds exactly on `[0-9a-f]` and inverts `Digit`. |
| `Hex.ToStringRadix16` | client/auth-app/src/utils/crypto.ts:23 | `toString(16)` writes at least one digit, and exactly one below 16. |
| `Hex.PadStart` | client/auth-app/src/utils/crypto.ts:23 | `padStart` yields the requested length, or the original length if that is longer. |
| `Hex.Encode` | client/auth-app/src/utils/crypto.ts:21-24 | The encoding is exactly twice as long as the byte array. |
| `Hex.DecodePair` | client/auth-app/src/utils/crypto.ts:23 | A pair of characters decodes exactly when both are lowercase hex digits. |
| `Hex.Decode` | client/auth-app/src/utils/crypto.ts:21-24 | A successful decoding is half as long as its input. |
| `Hex.ByteRadix16` | client/auth-app/src/utils/crypto.ts:23 | A byte is written by `toString(16)` as one digit below 16 and as two digits from 16 on. |
| `Hex.ByteToHexNibbles` | client/auth-app/src/utils/crypto.ts:23 | Every byte becomes exactly two characters: the high nibble's digit, then the low nibble's, with zero padding. |
| `Hex.EncodeAt` | client/auth-app/src/utils/crypto.ts:21-24 | Byte `i` is written at characters `2i` and `2i+1`, so order is preserved. |
| `Hex.EncodeIsLowerHex` | client/auth-app/src/utils/crypto.ts:21-24 | Every character of the encoding is in `[0-9a-f]`. |
| `Hex.PairOfByte` | client/auth-app/src/utils/crypto.ts:23 | A byte's two digits decode back to the byte. |
| `Hex.ByteOfPair` | client/auth-app/src/utils/crypto.ts:23 | A pair that decodes is the two digits of the byte it decodes to. |
| `Hex.DecodeEncode` | client/auth-app/src/utils/crypto.ts:21-24 | Decoding the encoding gives back the original byte array. |
| `Hex.EncodeDecode` | client/auth-app/src/utils/crypto.ts:21-24 | Any string that decodes is the encoding of what it decodes to. |
| `Hex.EncodeInjective` | client/auth-app/src/utils/crypto.ts:21-24 | Distinct byte arrays have distinct encodings. |
| `Hex.HashPassword` | client/auth-app/src/utils/crypto.ts:12-27 | The client's password hash has 64 characters and decodes to the SHA-256 digest of the password. |
| `AuthReducer.ReduceAllPair` | client/auth-app/src/context/AuthContext.tsx:52-65 | Dispatching two actions equals applying the reducer twice. |
| `AuthReducer.RequestStartsLoading` | client/auth-app/src/context/authReducer.ts:31-38 | A request sets loading and clears the error; user and authentication are unchanged. |
| `AuthReducer.SuccessSignsIn` | client/auth-app/src/context/authReducer.ts:39-47 | A login or sign-up success gives the payload's user, signed in, not loading, no error, whatever the state before. |
| `AuthReducer.FailureRecordsMessage` | client/auth-app/src/context/authReducer.ts:48-55 | A failure stops loading and records its message; user and authentication are unchanged. |
| `AuthReducer.LogoutResets` | client/auth-app/src/context/authReducer.ts:56-59 | Logout gives the initial state from any state, and is idempotent. |
| `AuthReducer.ResetPasswordSuccessKeepsSession` | client/auth-app/src/context/authReducer.ts:60-65 | A finished reset stops loading and clears the error; user and authentication are unchanged. |
| `AuthReducer.ClearErrorOnlyClears` | client/auth-app/src/context/authReducer.ts:66-70 | Clearing the error changes only the error, and is idempotent. |
| `AuthReducer.ReduceKeepsConsistent` | client/auth-app/src/context/authReducer.ts:4-9 | The initial state is signed in exactly when it holds a user, and every action keeps that invariant. |
| `AuthReducer.ReduceAllKeepsConsistent` | client/auth-app/src/context/authReducer.ts:26-74 | Any series of actions from a consistent state, the initial state included, ends in a consistent state. |
| `AuthReducer.LogoutForgetsHistory` | client/auth-app/src/context/authReducer.ts:56-59 | After a logout, the state depends only on the actions dispatched since. |
| `MockAuthService.Login` | client/auth-app/src/services/auth/authService.ts:18-35 | Succeeds exactly for `test@example.com` / `password`, returning user `1` with that e-mail and the name "Test User". Anything else fails with "Invalid email or password". |
| `MockAuthService.Signup` | client/auth-app/src/services/auth/authService.ts:40-55 | Fails with "Passwords do not match" exactly when the confirmation differs. Otherwise returns user `1` with the submitted e-mail and name. |
| `MockAuthService.ResetPassword` | client/auth-app/src/services/auth/authService.ts:60-69 | Always succeeds. |
| `MockAuthService.LoginFlow` | client/auth-app/src/context/AuthContext.tsx:52-65 | A login from any state ends not loading. With the test credentials the test user is signed in. With any other credentials the error is "Invalid email or password" and the session is unchanged. |
| `MockAuthService.SignupFlow` | client/auth-app/src/context/AuthContext.tsx:67-81 | A sign-up signs in user `1` with the submitted e-mail exactly when the confirmation matches. Otherwise it shows "Passwords do not match" and leaves the session unchanged. |

## Left out

- Cryptographic primitives: PBKDF2-SHA512, SHA-256, JWT signing and verification, and `crypto.randomBytes`. They are parameters with fixed output lengths. Nothing is claimed about their collision resistance.
- The client's `TextEncoder` step before SHA-256 (UTF-8 encoding of the password): SHA-256 is taken over the password string directly.
- The expiry as `jsonwebtoken` reads it: the model stops at the number handed to the signer (minutes × 60 × 1000). The library reads a numeric `expiresIn` as seconds, not the milliseconds the code's comment names; the model does not follow it there.
- `Number()` on the environment string: the configured expiry is an integer number of minutes.
- The secrets: signing and verification each take their key as a parameter. The differing fallbacks of server/src/config/index.ts:11 and server/src/middleware/auth.ts:26 are not modelled.
- Mongoose and MongoDB:
  - `save()` persistence, `findOne` and the `_id` generator (the new id is a parameter);
  - `trim` and `lowercase` on e-mail and username, and the e-mail pattern;
  - the error texts of a schema-validation failure and of a duplicate key, which are abbreviated;
  - a `findById` given a malformed id throws a cast error, which the model treats as an unknown id;
  - `updatedAt` being refreshed on every save: timestamps are fixed when the document is created.
- Concurrency: concurrent logins racing on `failedLoginAttempts`. Each `login` is one atomic step at time `now`.
- The wall clock: `Date.now()` and `new Date()` are the parameter `now`.
- `UserModel.UserDocument.ToCustomJson`: the projection is a fixed record with no `__v`, `_id` or virtuals. The spread of the Mongoose object is not modelled.
- `client/auth-app/src/context/AuthContext.tsx`: its React hooks, `localStorage` and `JSON.parse` are not modelled. Only the order in which it dispatches reducer actions around a login or sign-up is kept.
- Logging: the server's `login` writes its whole input, the plaintext password included, to the console (server/src/services/auth.service.ts:33). The model has no log, so it says nothing about that disclosure.
- The stand-in service's artificial delay and console output.
- The client's user type declares `username`, but the stand-in service writes `name`. The model's client user carries `name`, as the code does.
- UI pages and components, with their form rules.
- GraphQL and Apollo plumbing, apart from the one header-format line of client/auth-app/src/services/apolloClient.ts.
- The resolvers; logout, current-user and cookie transport, which have no implementation in the service.
- Process and network setup.
- The user profile model.
