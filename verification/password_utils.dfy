/**
 * The server's password and token helpers. Every helper is one expression over a
 * cryptographic primitive; the primitives themselves (PBKDF2-SHA512, JWT signing and
 * verification) are fields of a `Crypto` value, and the bytes that `crypto.randomBytes`
 * would return are parameters.
 */
module PasswordUtils {
  import opened Wrappers
  import Hex

  type Byte = Hex.Byte

  /** What `crypto.randomBytes(16)` returns. */
  type Bytes16 = s: seq<Byte> | |s| == 16 witness seq(16, _ => 0)

  /** What `crypto.randomBytes(32)` returns. */
  type Bytes32 = s: seq<Byte> | |s| == 32 witness seq(32, _ => 0)

  /** A derived key of 64 bytes, the key length the server asks PBKDF2 for. */
  type Bytes64 = s: seq<Byte> | |s| == 64 witness seq(64, _ => 0)

  /** The payload the server signs into a session token. */
  datatype TokenPayload = TokenPayload(userId: string, email: string)

  /** The claims a verified token yields; a decoded payload may lack either field. */
  datatype Claims = Claims(userId: Option<string>, email: Option<string>)

  /**
   * The primitives: PBKDF2 with SHA-512, 10000 iterations and a 64-byte key; JWT signing
   * of a payload with a secret and a numeric `expiresIn`; JWT verification with a secret,
   * which either decodes the claims or fails (a thrown error in the library).
   */
  datatype Crypto = Crypto(
    pbkdf2Sha512: (string, string) -> Bytes64,
    jwtSign: (TokenPayload, string, int) -> string,
    jwtVerify: (string, string) -> Result<Claims, string>)

  /** The configuration the token helper reads: the signing secret and the lifetime in minutes. */
  datatype Config = Config(jwtSecret: string, jwtExpiryMinutes: int)

  /** The configuration with every environment variable unset. */
  const DefaultConfig := Config("", 15)

  /** `generateSalt`: 16 random bytes as lowercase hex. */
  function GenerateSalt(random: Bytes16): (salt: string)
    ensures |salt| == 32
    ensures Hex.Decode(salt) == Some(random)
  {
    Hex.DecodeEncode(random);
    Hex.Encode(random)
  }

  /** `generateToken`: 32 random bytes as lowercase hex. */
  function GenerateToken(random: Bytes32): (token: string)
    ensures |token| == 64
    ensures Hex.Decode(token) == Some(random)
  {
    Hex.DecodeEncode(random);
    Hex.Encode(random)
  }

  /** `hashPassword`: the derived key as lowercase hex, so always 128 characters. */
  function HashPassword(crypto: Crypto, password: string, salt: string): (hash: string)
    ensures |hash| == 128
    ensures Hex.Decode(hash) == Some(crypto.pbkdf2Sha512(password, salt))
  {
    Hex.DecodeEncode(crypto.pbkdf2Sha512(password, salt));
    Hex.Encode(crypto.pbkdf2Sha512(password, salt))
  }

  /** `verifyPassword`: recompute the hash from the presented password and compare. */
  function VerifyPassword(crypto: Crypto, password: string, hash: string, salt: string): bool
  {
    HashPassword(crypto, password, salt) == hash
  }

  /** A password always verifies against the hash computed from it with the same salt. */
  lemma VerifyOwnHash(crypto: Crypto, password: string, salt: string)
    ensures VerifyPassword(crypto, password, HashPassword(crypto, password, salt), salt)
  {
  }

  /**
   * A stored hash made from `stored` accepts `presented` exactly when the primitive derives
   * the same key from both; whether distinct passwords can collide is the primitive's business.
   */
  lemma VerifyAgainstOtherPassword(crypto: Crypto, presented: string, stored: string, salt: string)
    ensures VerifyPassword(crypto, presented, HashPassword(crypto, stored, salt), salt)
        <==> crypto.pbkdf2Sha512(presented, salt) == crypto.pbkdf2Sha512(stored, salt)
  {
    if VerifyPassword(crypto, presented, HashPassword(crypto, stored, salt), salt) {
      Hex.EncodeInjective(crypto.pbkdf2Sha512(presented, salt), crypto.pbkdf2Sha512(stored, salt));
    }
  }

  /** Only a well-formed hash can ever verify: 128 lowercase hexadecimal characters. */
  lemma VerifiedHashIsWellFormed(crypto: Crypto, password: string, hash: string, salt: string)
    requires VerifyPassword(crypto, password, hash, salt)
    ensures |hash| == 128
    ensures forall k :: 0 <= k < |hash| ==> Hex.IsHexDigit(hash[k])
  {
    Hex.EncodeIsLowerHex(crypto.pbkdf2Sha512(password, salt));
  }

  /** The numeric `expiresIn` handed to the signer: the configured minutes times 60 times 1000. */
  function ExpiresIn(config: Config): int
  {
    config.jwtExpiryMinutes * 60 * 1000
  }

  /** With the default lifetime of 15 minutes the signer is handed 900000. */
  lemma DefaultExpiresIn()
    ensures DefaultConfig.jwtExpiryMinutes == 15
    ensures ExpiresIn(DefaultConfig) == 900000
  {
  }

  /** `generateJWTToken`: sign exactly `{userId, email}` with the configured secret and lifetime. */
  function GenerateJwtToken(crypto: Crypto, config: Config, userId: string, email: string): string
  {
    crypto.jwtSign(TokenPayload(userId, email), config.jwtSecret, ExpiresIn(config))
  }
}
