/**
 * authentication/jwt.go: issuing and verifying the session token. The
 * environment (`ENVIRONMENT`, the outcome of loading `.env`, `JWT_SECRET_KEY`)
 * and the clock are parameters; HS256 signing and `jwt.Parse` belong to the
 * JWT library and are passed in as a `Signer` and a `Parser`.
 */
module Jwt {
  import opened GoText
  import opened Wrappers
  import opened Model

  datatype JwtEnv = JwtEnv(environment: GoString, dotenvError: Option<GoString>, secretKey: GoString)

  datatype ClaimValue = Text(text: GoString) | Seconds(seconds: int)

  /** `jwt.MapClaims`. */
  type Claims = map<GoString, ClaimValue>

  /** HS256 signing of the claims with the key: the token text, or the library's error. */
  type Signer = (Claims, GoString) -> Result<GoString, GoString>

  /** `jwt.Parse` with the key: the parsed claims and the `Valid` flag, or the library's error. */
  datatype ParsedToken = ParsedToken(claims: Claims, valid: bool)
  type Parser = (GoString, GoString) -> Result<ParsedToken, GoString>

  const Production: GoString := "production"
  const Issuer: GoString := "go-auth-server"
  const Audience: GoString := "user"
  const TokenLifetime: int := 3600
  const EnvFailedPrefix: GoString := "[FAIL]: could not load environment variables: "
  const SignFailedPrefix: GoString := "[FAIL]: could not sign token: "
  const InvalidTokenError: GoString := "[FAIL]: invalid token sent"

  /** Outside production, `.env` must load; its error is wrapped. */
  function LoadEnv(env: JwtEnv): (err: Option<GoString>)
    ensures err.Some? <==> env.environment != Production && env.dotenvError.Some?
    ensures err.Some? ==> err.value == EnvFailedPrefix + env.dotenvError.value
  {
    if env.environment != Production && env.dotenvError.Some? then Some(EnvFailedPrefix + env.dotenvError.value) else None
  }

  /**
   * The claims of a token for `userId`; `issuedAt` and `expiryRead` are the two
   * clock readings, in Unix seconds. The issuer sits under the key "issuer".
   */
  function TokenClaims(userId: Uuid, issuedAt: int, expiryRead: int): (c: Claims)
    ensures c.Keys == {"sub", "issuer", "aud", "iat", "exp"}
    ensures c["sub"] == Text(userId) && c["issuer"] == Text(Issuer) && c["aud"] == Text(Audience)
    ensures c["iat"] == Seconds(issuedAt) && c["exp"] == Seconds(expiryRead + TokenLifetime)
  {
    map["sub" := Text(userId), "issuer" := Text(Issuer), "aud" := Text(Audience),
        "iat" := Seconds(issuedAt), "exp" := Seconds(expiryRead + TokenLifetime)]
  }

  /** `CreateJWToken`: a signed token for the user, or why there is none. */
  function CreateJWToken(env: JwtEnv, userId: Uuid, issuedAt: int, expiryRead: int, sign: Signer): (r: Result<GoString, GoString>)
    ensures LoadEnv(env).Some? ==> r == Err(LoadEnv(env).value)
    ensures LoadEnv(env).None? ==>
      match sign(TokenClaims(userId, issuedAt, expiryRead), env.secretKey)
      case Ok(token) => r == Ok(token)
      case Err(e) => r == Err(SignFailedPrefix + e)
  {
    match LoadEnv(env)
    case Some(e) => Err(e)
    case None =>
      match sign(TokenClaims(userId, issuedAt, expiryRead), env.secretKey)
      case Ok(token) => Ok(token)
      case Err(e) => Err(SignFailedPrefix + e)
  }

  /** `VerifyToken`: the parsed token when it parses and is valid, else the reason. */
  function VerifyToken(env: JwtEnv, token: GoString, parse: Parser): (r: Result<ParsedToken, GoString>)
    ensures r.Ok? <==> LoadEnv(env).None? && parse(token, env.secretKey).Ok? && parse(token, env.secretKey).value.valid
    ensures r.Ok? ==> r.value == parse(token, env.secretKey).value
    ensures LoadEnv(env).Some? ==> r == Err(LoadEnv(env).value)
    ensures LoadEnv(env).None? && parse(token, env.secretKey).Err? ==> r == Err(parse(token, env.secretKey).error)
  {
    match LoadEnv(env)
    case Some(e) => Err(e)
    case None =>
      match parse(token, env.secretKey)
      case Err(e) => Err(e)
      case Ok(t) => if t.valid then Ok(t) else Err(InvalidTokenError)
  }

  /** With the clock read twice in order, the token expires no sooner than an hour after issue. */
  lemma ExpiryAtLeastAnHour(userId: Uuid, issuedAt: int, expiryRead: int)
    requires issuedAt <= expiryRead
    ensures var c := TokenClaims(userId, issuedAt, expiryRead);
      c["exp"].seconds >= c["iat"].seconds + TokenLifetime
      && (issuedAt == expiryRead ==> c["exp"].seconds == c["iat"].seconds + TokenLifetime)
  {
  }

  /**
   * A token this service issued verifies, carrying the user's id as subject,
   * provided the library accepts what it signed with the same key as a valid
   * token with the same claims.
   */
  lemma IssuedTokenVerifies(env: JwtEnv, userId: Uuid, issuedAt: int, expiryRead: int, sign: Signer, parse: Parser)
    requires CreateJWToken(env, userId, issuedAt, expiryRead, sign).Ok?
    requires forall c, k :: sign(c, k).Ok? ==> parse(sign(c, k).value, k) == Ok(ParsedToken(c, true))
    ensures var token := CreateJWToken(env, userId, issuedAt, expiryRead, sign).value;
      VerifyToken(env, token, parse).Ok? && VerifyToken(env, token, parse).value.claims["sub"] == Text(userId)
  {
    var c := TokenClaims(userId, issuedAt, expiryRead);
    assert sign(c, env.secretKey).Ok?;
  }

  /** A failed `.env` load stops both issuing and verifying, with the same message. */
  lemma EnvFailureStopsBoth(env: JwtEnv, userId: Uuid, t1: int, t2: int, sign: Signer, token: GoString, parse: Parser)
    requires env.environment != Production && env.dotenvError.Some?
    ensures CreateJWToken(env, userId, t1, t2, sign).Err? && VerifyToken(env, token, parse).Err?
    ensures CreateJWToken(env, userId, t1, t2, sign).error == VerifyToken(env, token, parse).error
  {
  }
}
