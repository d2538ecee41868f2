/**
 * handler/auth.go: the older revision of the auth handlers. Sign-up lowercases
 * the email instead of sanitizing, issues no token, and answers with the user
 * record as built, plaintext password included; sign-in and sign-out only log.
 */
module LegacyAuth {
  import opened GoText
  import opened Wrappers
  import opened Model
  import opened Request
  import opened Validator
  import opened Title
  import opened Http
  import opened Responses
  import opened UserRepository
  import opened Collaborators

  const DecodeFailedMessage: GoString := "Bad request, username, email or password not present"
  const ExistsCheckFailedMessage: GoString := "Could not check if user already exists"
  const EmailTakenMessage: GoString := "A user with that email already exists"
  const InsertFailedMessage: GoString := "Could not insert user into database"
  const SignedUpMessage: GoString := "Successfully inserted user into database"

  /** The body after `body.Email = strings.ToLower(body.Email)`. */
  function LowercaseEmail(body: AuthRequestBody): (r: AuthRequestBody)
    ensures r.username == body.username && r.password == body.password && r.email == ToLower(body.email)
  {
    body.(email := ToLower(body.email))
  }

  /** `Auth.SignUp`. */
  method SignUp(store: UserStore, request: Option<AuthRequestBody>, svc: Services, freshId: Uuid, faults: Faults)
    returns (reply: Reply, writes: seq<Write>)
    requires store.Valid()
    modifies store
    ensures store.Valid()
    ensures writes == ReplyWrites(reply, svc.encode)
    ensures request.None? ==> reply == Reply([], StatusBadRequest, DecodeFailedMessage, NullPayload) && unchanged(store)
    ensures request.Some? ==>
      var body := LowercaseEmail(request.value);
      var user := User(freshId, body.username, body.email, body.password);
      var check := ExistsByEmailResult(old(store.present), old(store.rows), body.email, faults.existsQuery);
      if ValidateUserInput(body).Some? then
        reply == Reply([], StatusBadRequest, ValidateUserInput(body).value, NullPayload) && unchanged(store)
      else if check.1.Some? then
        reply == Reply([], StatusInternalServerError, ExistsCheckFailedMessage, NullPayload) && unchanged(store)
      else if check.0 then
        reply == Reply([], StatusBadRequest, EmailTakenMessage, NullPayload) && unchanged(store)
      else if InsertError(old(store.rows), user, faults, svc.hash).Some? then
        reply == Reply([], StatusInternalServerError, InsertFailedMessage, NullPayload) && unchanged(store)
      else
        reply == Reply([], StatusOK, SignedUpMessage, FullUser(user))
        && store.present && store.rows == old(store.rows) + [StoredRow(user, svc.hash(body.password).value)]
  {
    if request.None? {
      reply := Reply([], StatusBadRequest, DecodeFailedMessage, NullPayload);
      return reply, ReplyWrites(reply, svc.encode);
    }
    var body := LowercaseEmail(request.value);
    var invalid := ValidateUserInput(body);
    if invalid.Some? {
      CapitalizedErrorUnchanged(body);
      reply := Reply([], StatusBadRequest, CapitalizeFirstLetter(invalid.value), NullPayload);
      return reply, ReplyWrites(reply, svc.encode);
    }
    var found, err := store.UserExistsByEmail(body.email, faults.existsQuery);
    if err.Some? {
      reply := Reply([], StatusInternalServerError, ExistsCheckFailedMessage, NullPayload);
      return reply, ReplyWrites(reply, svc.encode);
    }
    if found {
      reply := Reply([], StatusBadRequest, EmailTakenMessage, NullPayload);
      return reply, ReplyWrites(reply, svc.encode);
    }
    var user := User(freshId, body.username, body.email, body.password);
    err := store.InsertUser(user, faults, svc.hash);
    if err.Some? {
      reply := Reply([], StatusInternalServerError, InsertFailedMessage, NullPayload);
      return reply, ReplyWrites(reply, svc.encode);
    }
    reply := Reply([], StatusOK, SignedUpMessage, FullUser(user));
    writes := ReplyWrites(reply, svc.encode);
  }

  /** `Auth.SignIn` and `Auth.SignOut` write nothing: the client gets an empty 200. */
  function LogOnly(): (writes: seq<Write>)
    ensures Deliver(writes) == Some(Response(StatusOK, map[], [], ""))
  {
    []
  }
}
