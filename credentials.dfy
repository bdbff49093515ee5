/**
 * Password hashing, token claims and bearer-header parsing. Argon2 and the JWT library
 * are foreign code: they appear as function values handed in by the caller, and the
 * guarantees the code relies on are predicates over them (`SoundHasher`, `SoundCodec`)
 * that lemmas take as hypotheses.
 */
module Credentials {
  import opened Wrappers
  import opened Errors
  import opened Text
  import Uuids
  import opened Models

  /** The random salt `SaltString::generate` draws. */
  type Salt = nat

  /** Argon2: `hash` renders the PHC string or the library's error; `verify` fails on a malformed hash. */
  datatype Hasher = Hasher(
    hash: (string, Salt) -> Result<string, string>,
    verify: (string, string) -> Result<bool, string>)

  /** What the password test asserts: a hash verifies its own password and no other. */
  ghost predicate SoundHasher(h: Hasher) {
    forall p, salt, q :: h.hash(p, salt).Ok? ==>
      h.verify(q, h.hash(p, salt).value) == Ok(q == p)
  }

  /** `hash_password`. */
  function HashPassword(h: Hasher, password: string, salt: Salt): (r: Result<string, AppError>)
    ensures r.Err? ==> r.error.Internal?
    ensures SoundHasher(h) && r.Ok? ==> VerifyPassword(h, password, r.value) == Ok(true)
  {
    match h.hash(password, salt)
    case Ok(phc) => Ok(phc)
    case Err(e) => Err(Internal("Failed to hash password: " + e))
  }

  /** `verify_password`: an unparsable stored hash is an internal error, not a mismatch. */
  function VerifyPassword(h: Hasher, password: string, hash: string): (r: Result<bool, AppError>)
    ensures r.Err? ==> r.error.Internal?
  {
    match h.verify(password, hash)
    case Ok(ok) => Ok(ok)
    case Err(e) => Err(Internal("Failed to parse password hash: " + e))
  }

  /** The JWT claims. */
  datatype Claims = Claims(sub: string, email: string, exp: int, iat: int)

  /** HS256 encoding and decoding; `decode` also rejects an expired token, given the time. */
  datatype JwtCodec = JwtCodec(
    encode: (Claims, string) -> Result<string, string>,
    decode: (string, string, Time) -> Result<Claims, string>)

  /** What the token test asserts: a token validates, with the same secret and before it expires, to its claims. */
  ghost predicate SoundCodec(c: JwtCodec) {
    forall claims, secret, now :: c.encode(claims, secret).Ok? && now <= claims.exp ==>
      c.decode(c.encode(claims, secret).value, secret, now) == Ok(claims)
  }

  /** The claims `generate_token` signs for a user at time `now`. */
  function TokenClaims(userId: Uuids.Uuid, email: string, now: Time, expiration: int): (c: Claims)
    ensures Uuids.Parse(c.sub) == Some(userId)
    ensures c.email == email && c.iat == now && c.exp - c.iat == expiration
  {
    Uuids.ParseToString(userId);
    Claims(Uuids.ToString(userId), email, now + expiration, now)
  }

  /** `generate_token`. */
  function GenerateToken(c: JwtCodec, userId: Uuids.Uuid, email: string, secret: string,
                         expiration: int, now: Time): (r: Result<string, AppError>)
    ensures r.Err? ==> r.error.Internal?
  {
    match c.encode(TokenClaims(userId, email, now, expiration), secret)
    case Ok(token) => Ok(token)
    case Err(e) => Err(Internal("Failed to generate token: " + e))
  }

  /** `validate_token`: every decoding failure is an authentication error. */
  function ValidateToken(c: JwtCodec, token: string, secret: string, now: Time): (r: Result<Claims, AppError>)
    ensures r.Err? ==> r.error.Authentication?
  {
    match c.decode(token, secret, now)
    case Ok(claims) => Ok(claims)
    case Err(e) => Err(Authentication("Invalid token: " + e))
  }

  /** A generated token validates, with the same secret and before expiry, to the user's id and email. */
  lemma GeneratedTokenValidates(c: JwtCodec, userId: Uuids.Uuid, email: string, secret: string,
                                expiration: int, now: Time, later: Time)
    requires SoundCodec(c)
    requires GenerateToken(c, userId, email, secret, expiration, now).Ok?
    requires now <= later <= now + expiration
    ensures var claims := TokenClaims(userId, email, now, expiration);
      ValidateToken(c, GenerateToken(c, userId, email, secret, expiration, now).value, secret, later)
        == Ok(claims)
    ensures var v := ValidateToken(c, GenerateToken(c, userId, email, secret, expiration, now).value, secret, later);
      v.Ok? && Uuids.Parse(v.value.sub) == Some(userId) && v.value.email == email
  {
    var claims := TokenClaims(userId, email, now, expiration);
    assert c.encode(claims, secret).Ok?;
  }

  const BearerPrefix := "Bearer "

  /** `extract_token_from_header`: exactly the text after a case-sensitive "Bearer " prefix. */
  function ExtractTokenFromHeader(header: string): (r: Result<string, AppError>)
    ensures r.Ok? <==> StartsWith(header, BearerPrefix)
    ensures r.Ok? ==> BearerPrefix + r.value == header
    ensures r.Err? ==> r == Err(Authentication("Invalid authorization header format"))
  {
    if !StartsWith(header, BearerPrefix) then
      Err(Authentication("Invalid authorization header format"))
    else
      Ok(header[|BearerPrefix|..])
  }

  /** Whatever follows the prefix comes back unchanged, the empty token included. */
  lemma ExtractAfterBearer(token: string)
    ensures ExtractTokenFromHeader(BearerPrefix + token) == Ok(token)
    ensures ExtractTokenFromHeader(BearerPrefix) == Ok("")
  {
    assert (BearerPrefix + token)[..|BearerPrefix|] == BearerPrefix;
    assert (BearerPrefix + token)[|BearerPrefix|..] == token;
    assert BearerPrefix[..|BearerPrefix|] == BearerPrefix;
  }

  /** Headers without the exact prefix are refused: the test's "InvalidFormat" and a lower-case scheme. */
  lemma ExtractRejects()
    ensures ExtractTokenFromHeader("InvalidFormat").Err?
    ensures ExtractTokenFromHeader("bearer abc").Err?
  {
    assert "InvalidFormat"[..7] != BearerPrefix by { assert "InvalidFormat"[0] != 'B'; }
    assert "bearer abc"[..7] != BearerPrefix by { assert "bearer abc"[0] != 'B'; }
  }
}
