/**
 * middleware/authentication.go: the gate in front of the protected routes.
 * It either answers the request itself or hands it to the next handler.
 */
module Middleware {
  import opened GoText
  import opened Wrappers
  import opened Http
  import opened Responses
  import opened Jwt

  const NoTokenMessage: GoString := "Unauthorized request to a protected endpoint"
  const VerifyFailedMessage: GoString := "Failed to verify token"

  datatype Decision =
    | CallNext                 // next.ServeHTTP(w, r), with nothing written by the middleware
    | Answer(writes: seq<Write>)

  /**
   * `AuthenticateMiddleware`, for a request whose "token" cookie is
   * `tokenCookie`: no cookie is answered with a 401, a token that does not
   * verify with a 500, and only a verified token reaches the next handler.
   */
  function Authenticate(tokenCookie: Option<GoString>, env: JwtEnv, parse: Parser, encode: Encoder): (d: Decision)
    ensures d == CallNext <==> tokenCookie.Some? && VerifyToken(env, tokenCookie.value, parse).Ok?
    ensures tokenCookie.None? ==>
      d.Answer? && Deliver(d.writes) == Some(Received(Reply([], StatusUnauthorized, NoTokenMessage, NullPayload), encode))
    ensures tokenCookie.Some? && VerifyToken(env, tokenCookie.value, parse).Err? ==>
      d.Answer? && Deliver(d.writes) == Some(Received(Reply([], StatusInternalServerError, VerifyFailedMessage, NullPayload), encode))
  {
    match tokenCookie
    case None =>
      var reply := Reply([], StatusUnauthorized, NoTokenMessage, NullPayload);
      ReplyDelivered(reply, encode);
      Answer(ReplyWrites(reply, encode))
    case Some(token) =>
      match VerifyToken(env, token, parse)
      case Err(_) =>
        var reply := Reply([], StatusInternalServerError, VerifyFailedMessage, NullPayload);
        ReplyDelivered(reply, encode);
        Answer(ReplyWrites(reply, encode))
      case Ok(_) => CallNext
  }

  /**
   * Only validity matters: two parsers that both accept the token as valid,
   * whatever claims they read from it (another subject, audience or expiry),
   * lead to the same decision.
   */
  lemma ClaimsDoNotMatter(token: GoString, env: JwtEnv, p1: Parser, p2: Parser, encode: Encoder)
    requires LoadEnv(env).None?
    requires p1(token, env.secretKey).Ok? && p1(token, env.secretKey).value.valid
    requires p2(token, env.secretKey).Ok? && p2(token, env.secretKey).value.valid
    ensures Authenticate(Some(token), env, p1, encode) == Authenticate(Some(token), env, p2, encode) == CallNext
  {
  }
}
