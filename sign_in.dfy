/**
 * handler/auth/password/sign_in.go: password sign-in. After a body that
 * decodes, the "token" cookie is expired first, whatever follows; a new one is
 * set only when the password matches and a token is issued. The store is only
 * read.
 */
module PasswordSignIn {
  import opened GoText
  import opened Wrappers
  import opened Model
  import opened Request
  import opened Cookies
  import opened Http
  import opened Responses
  import opened UserRepository
  import opened Collaborators

  const DecodeFailedMessage: GoString := "Bad request, username, email or password not present"
  const ExistsCheckFailedMessage: GoString := "Internal server error, could not check if user already exists"
  const NoSuchUserMessage: GoString := "A user with those credentials does not exist"
  const LookupFailedMessage: GoString := "Internal server error, could not check if a user with that email exists"
  const MismatchMessage: GoString := "Provided passwords mismatch"
  const TokenFailedMessage: GoString := "Failed to create token"
  const SignedInMessage: GoString := "Successfully signed-in"

  /** `SignIn`, with the same parameters as sign-up; no fresh id is drawn. */
  method SignIn(store: UserStore, request: Option<AuthRequestBody>, svc: Services, clock: Clock, faults: Faults)
    returns (reply: Reply, writes: seq<Write>)
    ensures writes == ReplyWrites(reply, svc.encode)
    ensures request.None? ==> reply == Reply([], StatusBadRequest, DecodeFailedMessage, NullPayload)
    ensures request.Some? ==>
      var body := SanitizeUserInput(svc.sanitizers, request.value);
      var expired := ExpireCookie(clock.now, TokenCookieName);
      var check := ExistsByEmailResult(store.present, store.rows, body.email, faults.existsQuery);
      var found := ByEmailResult(store.rows, body.email, faults);
      var token := IssueToken(svc, clock, found.0.id);
      if check.1.Some? then reply == Reply([expired], StatusInternalServerError, ExistsCheckFailedMessage, NullPayload)
      else if !check.0 then reply == Reply([expired], StatusBadRequest, NoSuchUserMessage, NullPayload)
      else if found.1.Some? then reply == Reply([expired], StatusInternalServerError, LookupFailedMessage, NullPayload)
      else if !svc.compareWithHash(found.0.password, body.password) then reply == Reply([expired], StatusUnauthorized, MismatchMessage, NullPayload)
      else if token.Err? then reply == Reply([expired], StatusInternalServerError, TokenFailedMessage, NullPayload)
      else reply == Reply([expired, CreateTokenCookie(token.value)], StatusOK, SignedInMessage, FullUser(found.0))
  {
    if request.None? {
      reply := Reply([], StatusBadRequest, DecodeFailedMessage, NullPayload);
      return reply, ReplyWrites(reply, svc.encode);
    }
    var expired := ExpireCookie(clock.now, TokenCookieName);
    var body := SanitizeUserInput(svc.sanitizers, request.value);
    var found, err := store.UserExistsByEmail(body.email, faults.existsQuery);
    if err.Some? {
      reply := Reply([expired], StatusInternalServerError, ExistsCheckFailedMessage, NullPayload);
      return reply, ReplyWrites(reply, svc.encode);
    }
    if !found {
      reply := Reply([expired], StatusBadRequest, NoSuchUserMessage, NullPayload);
      return reply, ReplyWrites(reply, svc.encode);
    }
    var user;
    user, err := store.GetUserByEmail(body.email, faults);
    if err.Some? {
      reply := Reply([expired], StatusInternalServerError, LookupFailedMessage, NullPayload);
      return reply, ReplyWrites(reply, svc.encode);
    }
    if !svc.compareWithHash(user.password, body.password) {
      reply := Reply([expired], StatusUnauthorized, MismatchMessage, NullPayload);
      return reply, ReplyWrites(reply, svc.encode);
    }
    var token := IssueToken(svc, clock, user.id);
    if token.Err? {
      reply := Reply([expired], StatusInternalServerError, TokenFailedMessage, NullPayload);
      return reply, ReplyWrites(reply, svc.encode);
    }
    reply := Reply([expired, CreateTokenCookie(token.value)], StatusOK, SignedInMessage, FullUser(user));
    writes := ReplyWrites(reply, svc.encode);
  }
}
