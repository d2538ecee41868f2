/**
 * What the handlers depend on but this model does not define: the go-sanitize
 * functions, bcrypt, the JWT library and its environment, `json.Marshal`, and
 * the clock.
 */
module Collaborators {
  import opened GoText
  import Wrappers
  import opened Request
  import opened UserRepository
  import opened Jwt
  import opened Responses

  datatype Services = Services(
    sanitizers: Sanitizers,
    hash: Hasher,
    compareWithHash: (GoString, GoString) -> bool,  // util.CompareWithHash(hash, password)
    jwtEnv: JwtEnv,
    sign: Signer,
    encode: Encoder)

  /**
   * The clock readings of one request: `now` (nanoseconds since the Unix
   * epoch) for cookie expiry, and the two Unix-second readings `CreateJWToken`
   * takes for "iat" and "exp".
   */
  datatype Clock = Clock(now: int, issuedAt: int, expiryRead: int)

  /** `CreateJWToken` with the request's services and clock. */
  function IssueToken(svc: Services, clock: Clock, userId: GoString): Wrappers.Result<GoString, GoString>
  {
    CreateJWToken(svc.jwtEnv, userId, clock.issuedAt, clock.expiryRead, svc.sign)
  }
}
