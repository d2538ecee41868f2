/**
 * handler/auth/password/sign_up.go: password sign-up. Each check returns
 * early with its own answer; only a request that passes all of them changes
 * the store, and only that one gets the session cookie.
 */
module PasswordSignUp {
  import opened GoText
  import opened Wrappers
  import opened Model
  import opened Request
  import opened Validator
  import opened Title
  import opened Cookies
  import opened Http
  import opened Responses
  import opened UserRepository
  import opened Collaborators

  const DecodeFailedMessage: GoString := "Bad request, username, email or password not present"
  const ExistsCheckFailedMessage: GoString := "Could not check if user already exists"
  const EmailTakenMessage: GoString := "A user with that email already exists"
  const TokenFailedMessage: GoString := "Failed to create token"
  const InsertFailedMessage: GoString := "Could not insert user into database"
  const SignedUpMessage: GoString := "Successfully inserted user into database"

  /**
   * `SignUp`. `request` is the decoded JSON body (`None` when decoding fails),
   * `freshId` the `uuid.New()` of this request, `faults` what the database
   * driver does. The answer is `reply`, written as `writes`.
   */
  method SignUp(store: UserStore, request: Option<AuthRequestBody>, svc: Services, clock: Clock, freshId: Uuid, faults: Faults)
    returns (reply: Reply, writes: seq<Write>)
    requires store.Valid()
    modifies store
    ensures store.Valid()
    ensures writes == ReplyWrites(reply, svc.encode)
    ensures request.None? ==> reply == Reply([], StatusBadRequest, DecodeFailedMessage, NullPayload) && unchanged(store)
    ensures request.Some? ==>
      var body := SanitizeUserInput(svc.sanitizers, request.value);
      var user := User(freshId, body.username, body.email, body.password);
      var check := ExistsByEmailResult(old(store.present), old(store.rows), body.email, faults.existsQuery);
      var token := IssueToken(svc, clock, freshId);
      if ValidateUserInput(body).Some? then
        reply == Reply([], StatusBadRequest, ValidateUserInput(body).value, NullPayload) && unchanged(store)
      else if check.1.Some? then
        reply == Reply([], StatusInternalServerError, ExistsCheckFailedMessage, NullPayload) && unchanged(store)
      else if check.0 then
        reply == Reply([], StatusBadRequest, EmailTakenMessage, NullPayload) && unchanged(store)
      else if token.Err? then
        reply == Reply([], StatusInternalServerError, TokenFailedMessage, NullPayload) && unchanged(store)
      else if InsertError(old(store.rows), user, faults, svc.hash).Some? then
        reply == Reply([], StatusInternalServerError, InsertFailedMessage, NullPayload) && unchanged(store)
      else
        reply == Reply([CreateTokenCookie(token.value)], StatusOK, SignedUpMessage, Summary(PayloadOf(user)))
        && store.present && store.rows == old(store.rows) + [StoredRow(user, svc.hash(body.password).value)]
  {
    if request.None? {
      reply := Reply([], StatusBadRequest, DecodeFailedMessage, NullPayload);
      return reply, ReplyWrites(reply, svc.encode);
    }
    var body := SanitizeUserInput(svc.sanitizers, request.value);
    var invalid := ValidateUserInput(body);
    if invalid.Some? {
      CapitalizedErrorUnchanged(body);
      reply := Reply([], StatusBadRequest, CapitalizeFirstLetter(invalid.value), NullPayload);
      return reply, ReplyWrites(reply, svc.encode);
    }
    var found, err := store.UserExistsByEmail(body.email, faults.existsQuery);
    if err.Some? {
      reply := Reply([], StatusInternalServerError, ExistsCheckFailedMessage, NullPayload);
      return reply, ReplyWrites(reply, svc.encode);
    }
    if found {
      reply := Reply([], StatusBadRequest, EmailTakenMessage, NullPayload);
      return reply, ReplyWrites(reply, svc.encode);
    }
    var user := User(freshId, body.username, body.email, body.password);
    var token := IssueToken(svc, clock, user.id);
    if token.Err? {
      reply := Reply([], StatusInternalServerError, TokenFailedMessage, NullPayload);
      return reply, ReplyWrites(reply, svc.encode);
    }
    err := store.InsertUser(user, faults, svc.hash);
    if err.Some? {
      reply := Reply([], StatusInternalServerError, InsertFailedMessage, NullPayload);
      return reply, ReplyWrites(reply, svc.encode);
    }
    reply := Reply([CreateTokenCookie(token.value)], StatusOK, SignedUpMessage, Summary(PayloadOf(user)));
    writes := ReplyWrites(reply, svc.encode);
  }
}
