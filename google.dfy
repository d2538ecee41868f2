/**
 * handler/auth/oauth/google.go: sign-in with Google. `GoogleSignIn` fills the
 * package-level OAuth configuration from the environment and redirects to
 * Google; `GoogleSignInCallback` checks the state, turns the Google profile
 * into a user and stores it. The code exchange, the userinfo request and the
 * decoding of its JSON are network I/O, passed in as their outcome.
 */
module GoogleOauth {
  import opened GoText
  import opened Wrappers
  import opened Model
  import opened Cookies
  import opened Base64Url
  import opened OauthState
  import opened Http
  import opened Responses
  import opened UserRepository
  import opened Collaborators
  import Jwt

  const ConfigFailedMessage: GoString := "Failed to configure Google OAuth"
  const FailureRedirect: GoString := "failure"
  const UserExistsMessage: GoString := "User already exists"
  const CreateUserFailedMessage: GoString := "Failed to create new user"
  const TokenFailedMessage: GoString := "Failed to create token"
  const SignedInMessage: GoString := "Successfully signed-in with Google"
  const ExchangeFailedError: GoString := "failed to exchange code"
  const FetchFailedError: GoString := "failed to get user info"
  const DecodeFailedPrefix: GoString := "failed to decode response: "

  /** The environment `initializeGoogleConfig` reads. */
  datatype OauthEnv = OauthEnv(
    environment: GoString,
    dotenvError: Option<GoString>,
    clientId: GoString,
    clientSecret: GoString,
    redirectUrl: GoString)

  /** The package-level `googleOauthConfig`; its scopes and endpoint never change. */
  class OauthConfig {
    var clientId: GoString
    var clientSecret: GoString
    var redirectUrl: GoString

    /** The configuration as the program starts: every credential empty. */
    constructor ()
      ensures clientId == "" && clientSecret == "" && redirectUrl == ""
    {
      clientId, clientSecret, redirectUrl := "", "", "";
    }

    /**
     * `initializeGoogleConfig`: outside production `.env` must load, and on
     * failure the configuration is left as it was; otherwise the three
     * credentials are taken from the environment.
     */
    method Initialize(env: OauthEnv) returns (err: Option<GoString>)
      modifies this
      ensures env.environment != Jwt.Production && env.dotenvError.Some? ==>
        err == Some(Jwt.EnvFailedPrefix + env.dotenvError.value) && unchanged(this)
      ensures !(env.environment != Jwt.Production && env.dotenvError.Some?) ==>
        err == None && clientId == env.clientId && clientSecret == env.clientSecret && redirectUrl == env.redirectUrl
    {
      if env.environment != Jwt.Production && env.dotenvError.Some? {
        return Some(Jwt.EnvFailedPrefix + env.dotenvError.value);
      }
      clientId := env.clientId;
      clientSecret := env.clientSecret;
      redirectUrl := env.redirectUrl;
      return None;
    }
  }

  /** `AuthCodeURL(state)` of the configuration: from client id, redirect URL and state to Google's consent URL. */
  type AuthCodeUrl = (GoString, GoString, GoString) -> GoString

  /**
   * `GoogleSignIn`. A configuration failure writes a 500 but does not return,
   * so the state cookie and the redirect are still written after it.
   */
  method GoogleSignIn(config: OauthConfig, env: OauthEnv, now: int, entropy: seq<Byte>, authCodeUrl: AuthCodeUrl, encode: Encoder)
    returns (writes: seq<Write>)
    modifies config
    ensures var state := Encode(StateBuffer(entropy));
      var tail := [SetCookie(StateCookie(now, state)), Redirect(authCodeUrl(config.clientId, config.redirectUrl, state), StatusTemporaryRedirect)];
      if env.environment != Jwt.Production && env.dotenvError.Some?
      then unchanged(config) && writes == JsonResponse(encode, ConfigFailedMessage, StatusInternalServerError, NullPayload) + tail
      else config.clientId == env.clientId && config.redirectUrl == env.redirectUrl && config.clientSecret == env.clientSecret && writes == tail
  {
    writes := [];
    var err := config.Initialize(env);
    if err.Some? {
      writes := JsonResponse(encode, ConfigFailedMessage, StatusInternalServerError, NullPayload);
    }
    var state, cookie := GenerateStateOauthCookie(now, entropy);
    writes := writes + [SetCookie(cookie)];
    var url := authCodeUrl(config.clientId, config.redirectUrl, state);
    writes := writes + [Redirect(url, StatusTemporaryRedirect)];
  }

  /**
   * When the configuration fails the client gets the 500 alone: the state
   * cookie and the redirect come after the status line and are lost.
   */
  lemma ConfigFailureHidesRedirect(encode: Encoder, cookie: Cookie, url: GoString)
    ensures Deliver(JsonResponse(encode, ConfigFailedMessage, StatusInternalServerError, NullPayload) + [SetCookie(cookie), Redirect(url, StatusTemporaryRedirect)])
      == Some(Received(Reply([], StatusInternalServerError, ConfigFailedMessage, NullPayload), encode))
  {
    var reply := Reply([], StatusInternalServerError, ConfigFailedMessage, NullPayload);
    var ws := JsonResponse(encode, ConfigFailedMessage, StatusInternalServerError, NullPayload);
    var tail := [SetCookie(cookie), Redirect(url, StatusTemporaryRedirect)];
    RunJsonResponse(Unsent, encode, ConfigFailedMessage, StatusInternalServerError, NullPayload);
    RunAppend(Unsent, ws, tail);
    var w := Wire(true, Received(reply, encode));
    assert Run(w, tail) == Run(w, tail[1..]) == Run(w, tail[2..]) == Some(w);
  }

  /** Without a configuration failure the client is redirected with the state cookie. */
  lemma RedirectDelivered(cookie: Cookie, url: GoString)
    ensures Deliver([SetCookie(cookie), Redirect(url, StatusTemporaryRedirect)])
      == Some(Response(StatusTemporaryRedirect, map["Location" := url], [cookie], ""))
  {
    var ws := [SetCookie(cookie), Redirect(url, StatusTemporaryRedirect)];
    var w1 := Wire(false, Response(200, map[], [cookie], ""));
    assert [] + [cookie] == [cookie];
    assert Run(Unsent, ws) == Run(w1, ws[1..]);
    assert map[][ "Location" := url] == map["Location" := url];
  }

  /** The outcome of the code exchange, the userinfo request and the decoding of its JSON. */
  datatype ProfileFetch =
    | ExchangeFailed
    | FetchFailed
    | DecodeFailed(decodeError: GoString)
    | Fetched(name: GoString, email: GoString, googleId: GoString)

  /**
   * `getGoogleUserData`: the Google name becomes the username, the Google
   * account id the password, and the id is freshly drawn.
   */
  function GetGoogleUserData(fetch: ProfileFetch, freshId: Uuid): (r: Result<User, GoString>)
    ensures fetch.Fetched? <==> r.Ok?
    ensures fetch.Fetched? ==> r.value == User(freshId, fetch.name, fetch.email, fetch.googleId)
    ensures fetch.ExchangeFailed? ==> r == Err(ExchangeFailedError)
    ensures fetch.FetchFailed? ==> r == Err(FetchFailedError)
    ensures fetch.DecodeFailed? ==> r == Err(DecodeFailedPrefix + fetch.decodeError)
  {
    match fetch
    case ExchangeFailed => Err(ExchangeFailedError)
    case FetchFailed => Err(FetchFailedError)
    case DecodeFailed(e) => Err(DecodeFailedPrefix + e)
    case Fetched(name, email, id) => Ok(User(freshId, name, email, id))
  }

  /**
   * `GoogleSignInCallback`. `stateCookie` is the "oauthstate" cookie of the
   * request, `formState` its `state` form value. A missing cookie makes the
   * handler dereference nil.
   */
  method GoogleSignInCallback(store: UserStore, stateCookie: Option<GoString>, formState: GoString, fetch: ProfileFetch,
                              svc: Services, clock: Clock, freshId: Uuid, faults: Faults)
    returns (writes: seq<Write>)
    requires store.Valid()
    modifies store
    ensures store.Valid()
    ensures stateCookie.None? ==> writes == [Panic] && unchanged(store)
    ensures stateCookie.Some? && formState != stateCookie.value ==>
      writes == [Redirect(FailureRedirect, StatusTemporaryRedirect)] && unchanged(store)
    ensures stateCookie.Some? && formState == stateCookie.value ==>
      var user := GetGoogleUserData(fetch, freshId);
      if user.Err? then writes == [Redirect(FailureRedirect, StatusTemporaryRedirect)] && unchanged(store)
      else
        var u := user.value;
        if ExistsResult(old(store.present), old(store.rows), u.email, u.username, faults.existsQuery).0 then
          writes == ReplyWrites(Reply([], StatusConflict, UserExistsMessage, NullPayload), svc.encode) && unchanged(store)
        else if InsertError(old(store.rows), u, faults, svc.hash).Some? then
          writes == ReplyWrites(Reply([], StatusInternalServerError, CreateUserFailedMessage, NullPayload), svc.encode) && unchanged(store)
        else
          store.present && store.rows == old(store.rows) + [StoredRow(u, svc.hash(u.password).value)]
          && writes == ReplyWrites(
            match IssueToken(svc, clock, u.id)
            case Err(_) => Reply([], StatusInternalServerError, TokenFailedMessage, NullPayload)
            case Ok(token) => Reply([CreateTokenCookie(token)], StatusOK, SignedInMessage, Summary(PayloadOf(u))),
            svc.encode)
  {
    if stateCookie.None? {
      return [Panic];
    }
    if formState != stateCookie.value {
      return [Redirect(FailureRedirect, StatusTemporaryRedirect)];
    }
    var userData := GetGoogleUserData(fetch, freshId);
    if userData.Err? {
      return [Redirect(FailureRedirect, StatusTemporaryRedirect)];
    }
    var user := userData.value;
    var found, _ := store.UserExists(user.email, user.username, faults.existsQuery);
    if found {
      return ReplyWrites(Reply([], StatusConflict, UserExistsMessage, NullPayload), svc.encode);
    }
    var err := store.InsertUser(user, faults, svc.hash);
    if err.Some? {
      return ReplyWrites(Reply([], StatusInternalServerError, CreateUserFailedMessage, NullPayload), svc.encode);
    }
    var token := IssueToken(svc, clock, user.id);
    if token.Err? {
      return ReplyWrites(Reply([], StatusInternalServerError, TokenFailedMessage, NullPayload), svc.encode);
    }
    var reply := Reply([CreateTokenCookie(token.value)], StatusOK, SignedInMessage, Summary(PayloadOf(user)));
    writes := ReplyWrites(reply, svc.encode);
  }

  /** A callback whose state cookie is missing gets no response at all. */
  lemma MissingStateCookieAborts()
    ensures Deliver([Panic]) == None
  {
  }
}
