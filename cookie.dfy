/**
 * util/cookie.go: the session cookie and the deletion cookie, together with a
 * client's cookie store (section 5.3 of RFC 6265) to say what each one does
 * on arrival.
 */
module Cookies {
  import opened GoText
  import opened Wrappers

  datatype SameSite = SameSiteUnset | SameSiteDefaultMode | SameSiteLaxMode | SameSiteStrictMode | SameSiteNoneMode

  /**
   * The fields of `http.Cookie` the repository sets. `expires` is `None` for
   * Go's zero time; instants are nanoseconds since the Unix epoch.
   */
  datatype Cookie = Cookie(
    name: GoString,
    value: GoString,
    path: GoString,
    expires: Option<int>,
    maxAge: int,
    secure: bool,
    httpOnly: bool,
    sameSite: SameSite)

  const Second: int := 1_000_000_000
  const Hour: int := 3600 * Second

  const TokenCookieName: GoString := "token"

  /** util/cookie.go `CreateTokenCookie`: the session cookie carrying `token`, for one hour. */
  function CreateTokenCookie(token: GoString): (c: Cookie)
    ensures c.name == TokenCookieName && c.value == token && c.path == "/"
    ensures c.maxAge == 3600 && c.expires == None
    ensures c.sameSite == SameSiteLaxMode && !c.secure && !c.httpOnly
  {
    Cookie(TokenCookieName, token, "/", None, 3600, false, false, SameSiteLaxMode)
  }

  /**
   * util/cookie.go `ExpireCookie`: the one cookie it sets on the response,
   * given the clock reading `now`. It carries no Path.
   */
  function ExpireCookie(now: int, name: GoString): (c: Cookie)
    ensures c.name == name && c.value == "" && c.maxAge == -1
    ensures c.expires == Some(now - 24 * Hour) && c.expires.value < now
    ensures c.path == "" && !c.httpOnly && !c.secure && c.sameSite == SameSiteUnset
  {
    Cookie(name, "", "", Some(now - 24 * Hour), -1, false, false, SameSiteUnset)
  }

  // ---------------------------------------------------------------------
  // A client's cookies for one host, keyed by name and path (section 5.3 of RFC 6265).

  type Jar = map<(GoString, GoString), GoString>

  /** The default-path of a request path (section 5.1.4 of RFC 6265). */
  function DefaultPath(requestPath: GoString): (p: GoString)
    ensures |p| > 0 && p[0] == '/'
  {
    if |requestPath| == 0 || requestPath[0] != '/' then "/"
    else
      var k := LastIndexOf(requestPath, '/');
      if k <= 0 then "/" else requestPath[..k]
  }

  /** The path a received cookie is stored under: its Path attribute, or the default-path. */
  function StoredPath(c: Cookie, requestPath: GoString): GoString
  {
    if |c.path| > 0 && c.path[0] == '/' then c.path else DefaultPath(requestPath)
  }

  /**
   * The cookie is already expired on arrival. net/http writes a negative
   * MaxAge as `Max-Age=0`, which takes precedence over Expires; with no
   * Max-Age, an Expires at or before `now` has passed.
   */
  predicate ExpiredOnArrival(c: Cookie, now: int)
  {
    c.maxAge < 0 || (c.maxAge == 0 && c.expires.Some? && c.expires.value <= now)
  }

  /** The client receives `c` in a response to `requestPath` at time `now`. */
  function Receive(jar: Jar, c: Cookie, requestPath: GoString, now: int): Jar
  {
    var key := (c.name, StoredPath(c, requestPath));
    if ExpiredOnArrival(c, now) then jar - {key} else jar[key := c.value]
  }

  /** The session cookie is stored under path "/" with the token verbatim, whatever the request path. */
  lemma TokenCookieStoredAtRoot(jar: Jar, token: GoString, requestPath: GoString, now: int)
    ensures Receive(jar, CreateTokenCookie(token), requestPath, now) == jar[(TokenCookieName, "/") := token]
  {
  }

  /**
   * The deletion cookie removes the cookie of that name stored under the
   * request's default-path, and nothing else.
   */
  lemma ExpireCookieRemovesAtDefaultPath(jar: Jar, name: GoString, requestPath: GoString, now: int)
    ensures Receive(jar, ExpireCookie(now, name), requestPath, now) == jar - {(name, DefaultPath(requestPath))}
  {
  }

  /** The default-path of the sign-out route is "/auth". */
  lemma SignOutDefaultPath()
    ensures DefaultPath("/auth/sign-out") == "/auth"
  {
    var p: GoString := "/auth/sign-out";
    assert p[5] == '/';
    var k := LastIndexOf(p, '/');
    assert k >= 5;
    assert k == 5 by {
      assert forall i :: 5 < i < |p| ==> p[i] != '/';
    }
  }

  /**
   * So a session cookie set with Path "/" survives the deletion cookie sent by
   * a request to "/auth/sign-out": the two are stored under different paths.
   */
  lemma DeletionFromSignOutKeepsRootToken(jar: Jar, token: GoString, now: int, later: int)
    ensures var withToken := Receive(jar, CreateTokenCookie(token), "/auth/sign-up", now);
      var after := Receive(withToken, ExpireCookie(later, TokenCookieName), "/auth/sign-out", later);
      (TokenCookieName, "/") in after && after[(TokenCookieName, "/")] == token
  {
    SignOutDefaultPath();
    TokenCookieStoredAtRoot(jar, token, "/auth/sign-up", now);
    ExpireCookieRemovesAtDefaultPath(jar[(TokenCookieName, "/") := token], TokenCookieName, "/auth/sign-out", later);
    assert (TokenCookieName, "/") != (TokenCookieName, "/auth");
  }
}
