/**
 * handler/auth/shared/sign_out.go: sign-out expires the "token" cookie and
 * answers 200, touching neither the auth service nor the store.
 */
module SharedSignOut {
  import opened GoText
  import opened Wrappers
  import opened Cookies
  import opened Http
  import opened Responses

  const SignedOutMessage: GoString := "Successfully signed-out"

  /** `SignOut`: the deletion cookie, then the JSON answer. */
  function SignOut(now: int, encode: Encoder): (writes: seq<Write>)
    ensures |writes| > 0 && writes[0] == SetCookie(ExpireCookie(now, TokenCookieName))
    ensures Deliver(writes) == Some(Received(Reply([ExpireCookie(now, TokenCookieName)], StatusOK, SignedOutMessage, NullPayload), encode))
  {
    var reply := Reply([ExpireCookie(now, TokenCookieName)], StatusOK, SignedOutMessage, NullPayload);
    ReplyDelivered(reply, encode);
    ReplyWrites(reply, encode)
  }
}
