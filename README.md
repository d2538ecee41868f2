# go-auth-backend, modelled in Dafny

This project models the core of `go-auth-backend`, a small Go HTTP service. The service signs users up and in with a password or with Google OAuth, and keeps them in a PostgreSQL `users` table. It hands out JWTs in a `token` cookie and protects routes with an authentication middleware.

What is modelled, one Dafny module per source file:

- **Pure helpers.**
  - `Email`: the e-mail recognizer.
  - `Title`: `CapitalizeFirstLetter`.
  - `Validator` and `Validators`: the two copies of the input validator.
  - `Request`: input sanitizing.
  - `Cookies`: the token cookie and the expiry cookie.
  - `Base64Url` and `OauthState`: the OAuth state value, encoded as padded base64url per section 5 of RFC 4648.
  - `Responses`: the JSON response envelope.
  - `Jwt`: JWT claim construction and the verification outcome.
  - `Middleware`: the middleware decision.
- **The user store** (`UserRepository.UserStore`). A class holding whether the `users` table exists and its committed rows. The class invariant is the schema's uniqueness of `id`, `username` and `email`. A transaction is a copy of the store that is committed back or dropped, so every failing insert leaves the store exactly as it was.
- **The handlers**: password sign-up and sign-in, the Google sign-in and callback, the older `Auth` sign-up, the user lookup and sign-out. Each is a method that returns the HTTP writes it performs, in order. `Http.Deliver` interprets those writes the way `net/http` does:
  - a header or cookie set after the status line is lost;
  - a body written without a status line sends 200;
  - a redirect after the status line is dropped;
  - a nil dereference (`Panic`) sends no response at all.

  Every handler contract says, per outcome, which status, message, payload and cookies the client receives (`Responses.Received`), and what happened to the store.

The model treats the world outside the code as parameters. This covers:

- the request body decoder (an `Option`);
- the go-sanitize functions;
- bcrypt hash and compare;
- `json.Marshal`;
- the JWT signer and parser;
- the clock;
- the bytes from `crypto/rand`;
- environment variables and `.env` loading;
- the Google code exchange and profile fetch;
- `AuthCodeURL`;
- a fresh `uuid.New()`;
- database failures (`UserRepository.Faults`).

A Go string is a Dafny `string` whose characters each stand for one byte, so `|s|` is Go's `len(s)`.

One call does not match the function it calls. `UserExists` is declared with `(email, username)` (repository/user/postgres.go:99), but the password handlers call it with the email only (handler/auth/password/sign_up.go:59, handler/auth/password/sign_in.go:52, handler/auth.go:49). The model follows the declaration, and those calls are modelled by `UserRepository.UserStore.UserExistsByEmail`, a query on the email alone. The Google callback calls the two-argument form.

The handlers that validate input (handler/auth.go:13 and handler/auth/password/sign_up.go:12) import the validator/ directory, whose package is also named `validators`, so they call `Validator.ValidateUserInput`. Nothing in the handlers uses the copy in validators/auth_input.go. It is modelled as `Validators.ValidateUserInput`, and `Validators.SameAsValidator` proves that the two copies give the same result on the same three fields.

## Model

| member | source | states |
|---|---|---|
| Email.IsValidEmailMatchesPattern | util/email.go:21-32 | The hand-written recognizer accepts a string exactly when the whole string matches `[a-zA-Z0-9._%+-]+@[a-zA-Z0-9.-]+\.[a-zA-Z]{2,}`, anchored at both ends. |
| Email.AcceptedEmailMinLength | util/email.go:22 | An accepted address is at least 6 bytes long, so the empty string is rejected. |
| Email.AcceptedEmailHasOneAt | util/email.go:22 | An accepted address contains exactly one `@`. |
| Email.AcceptedEmailParts | util/email.go:22 | In an accepted address, the local part is non-empty and uses only the local characters. The text between the `@` and the last `.` is non-empty and uses only `[A-Za-z0-9.-]`. The text after the last `.` is two or more ASCII letters. |
| Email.CaseFlipPreservesValidity | util/email.go:22 | Flipping the ASCII case of any letters does not change acceptance. |
| Title.CapitalizeFirstLetter | util/title.go:18-23 | The empty string maps to itself. Otherwise everything after the first byte is kept. An ASCII first byte is upper-cased and the length is kept. A non-ASCII first byte becomes the three bytes of U+FFFD. |
| Title.CapitalizeKeepsNonLowerAscii | util/title.go:22 | A string whose first byte is ASCII but not a lower-case letter comes back unchanged. |
| Title.CapitalizeIdempotentIff | util/title.go:18-23 | Capitalizing twice equals capitalizing once exactly when the string is empty or starts with an ASCII byte. |
| Request.SanitizeUserInput | util/request.go:33-37 | The email, username and password are each replaced by the result of their own sanitizer: email, alpha and alpha-numeric. |
| Validator.ValidateUserInput | validator/auth_input.go:9-26 | Four iff-statements fix the check order. Any empty field gives the "is empty" error. Otherwise an address the pattern rejects gives "invalid email provided". Otherwise a password under 8 bytes gives the length error. No error is returned exactly when all three checks pass. |
| Validator.CapitalizedErrorUnchanged | validator/auth_input.go:11-23 | Every error text already starts with a non-lower-case ASCII byte, so the handlers' `CapitalizeFirstLetter` leaves it as is. |
| Validators.ValidateUserInput | validators/auth_input.go:15-32 | The same four iff-statements for the duplicate validator over its unexported body type. |
| Validators.SameAsValidator | validators/auth_input.go:15-32 | On the same username, email and password, both copies return the same result, error text included. |
| Cookies.CreateTokenCookie | util/cookie.go:20-31 | The cookie is named `token` and holds the token verbatim. It has Path `/` and MaxAge 3600, no Expires, SameSite Lax, and Secure and HttpOnly both off. |
| Cookies.ExpireCookie | util/cookie.go:46-56 | The cookie has the given name, an empty value and MaxAge -1. Its Expires is now minus 24 hours, which is strictly before now. It has no Path and HttpOnly is off. |
| Cookies.TokenCookieStoredAtRoot | util/cookie.go:20-31 | Under RFC 6265, a client that receives the token cookie stores the token under (`token`, `/`) from any request path. |
| Cookies.ExpireCookieRemovesAtDefaultPath | util/cookie.go:46-56 | A client that receives the expiry cookie deletes only the cookie of that name at the request's default path (section 5.1.4 of RFC 6265). |
| Cookies.SignOutDefaultPath | handler/auth/shared/sign_out.go:28 | The default path of `/auth/sign-out` is `/auth`. |
| Cookies.DeletionFromSignOutKeepsRootToken | handler/auth/shared/sign_out.go:26-32 | A token cookie set at sign-up is still in the client's jar after a later sign-out, because the expiry cookie carries no Path. |
| Base64Url.DecodeEncode | util/oauth.go:24 | Decoding the padded base64url encoding of any byte string gives the bytes back. |
| Base64Url.EncodeAlphabet | util/oauth.go:24 | Every character of an encoding is from `A-Z a-z 0-9 - _` or the padding `=`. |
| Base64Url.EncodePaddingOneByte | util/oauth.go:22-24 | When the length is 1 modulo 3, the encoding ends in `==` and has no other padding. |
| Base64Url.Encode | util/oauth.go:24 | The encoding of n bytes is 4·⌈n/3⌉ characters long. |
| OauthState.StateBuffer | util/oauth.go:22-23 | The buffer is exactly 16 bytes. It holds the random bytes that were read, and zeroes where the read fell short. |
| OauthState.StateCookie | util/oauth.go:20-26 | The cookie is named `oauthstate` and its value is the state. It expires at now plus 365×24 hours. |
| OauthState.GenerateStateOauthCookie | util/oauth.go:19-29 | The 16-byte buffer is filled in place. The returned state is its padded base64url encoding, and the one cookie set is that state's cookie. |
| OauthState.StateShape | util/oauth.go:22-24 | The state is 24 characters from the URL-safe alphabet, the last two being `==`. |
| OauthState.StateDecodes | util/oauth.go:22-24 | The state decodes back to the 16 buffer bytes. |
| OauthState.StateInjective | util/oauth.go:22-24 | Different buffers give different states. |
| Responses.PayloadOf | util/response.go:33-37 | The user payload carries the id, username and email, and no password. |
| Responses.MakeEnvelope | util/response.go:19-23 | The message and payload are copied unchanged. `success` is true exactly when the status is below 400. |
| Responses.JsonResponse | util/response.go:57-76 | The first write sets Content-Type to `application/json`. The writes never panic and never set a cookie. |
| Responses.ReplyDelivered | util/response.go:57-76 | Setting the reply's cookies and then calling `JsonResponse` always delivers those cookies. When encoding succeeds it delivers the JSON content type, the given status and the encoded envelope. When encoding fails it delivers 500, `text/plain` with `nosniff`, and the failure prefix followed by the encoder's error text; the given status is never written. |
| Jwt.LoadEnv | authentication/jwt.go:16-21 | Loading fails exactly when the environment is not `production` and `.env` cannot be loaded. The error wraps the loader's error. |
| Jwt.TokenClaims | authentication/jwt.go:25-31 | The claims are exactly `sub` = the user id, `issuer` = `go-auth-server`, `aud` = `user`, `iat` = the first clock read, and `exp` = the second clock read plus 3600. |
| Jwt.CreateJWToken | authentication/jwt.go:14-41 | An env failure returns that error and signing is not attempted. A signing failure returns the wrapped signing error. Otherwise the result is the signed token. |
| Jwt.VerifyToken | authentication/jwt.go:43-68 | The token is returned exactly when the env loads, parsing succeeds and the token is valid. An env failure and a parse failure each return their own error. |
| Jwt.ExpiryAtLeastAnHour | authentication/jwt.go:29-30 | With the clock not running backwards, `exp` ≥ `iat` + 3600, with equality when both reads give the same time. |
| Jwt.IssuedTokenVerifies | authentication/jwt.go:14-68 | Suppose the parser accepts what the signer produced under the same key. Then a token that was issued verifies, and its `sub` is the user id. |
| Jwt.EnvFailureStopsBoth | authentication/jwt.go:16-21 | When the env fails to load, both issuing and verifying fail with the same error. |
| Middleware.Authenticate | middleware/authentication.go:25-49 | `next` is called exactly when a `token` cookie is present and verifies. With no cookie, the client gets 401 "Unauthorized request to a protected endpoint". With a cookie that fails verification, it gets 500 "Failed to verify token". |
| Middleware.ClaimsDoNotMatter | middleware/authentication.go:37-47 | Any two parsers that both accept the token as valid lead to `next`, whatever claims they report. |
| UserRepository.StoredRow | repository/user/postgres.go:56-70 | The stored row keeps the id, username and email, and its password is the hash. |
| UserRepository.AppendKeepsUnique | repository/user/postgres.go:237-242 | Appending a row that clashes with no row on id, username or email keeps the three columns unique. |
| UserRepository.InsertError | repository/user/postgres.go:35-83 | The insert succeeds exactly when begin, table creation, hashing, the unique and length constraints, the insert and the commit all succeed. Begin, table creation and hashing failures each give their own error. A clash with an existing row, an over-long value and an insert driver fault all give "could not execute insert query". A commit fault gives "could not commit transaction". |
| UserRepository.ExistsQueryFailed | repository/user/postgres.go:109-119 | A failed existence query reports that the user is absent. Its error is dropped exactly when the driver's text contains "does not exist". |
| UserRepository.ExistsResult | repository/user/postgres.go:99-122 | Without a fault, the result is true exactly when the table exists and some row has that email or that username. With a fault, it is false, and an error is returned unless the table is missing. |
| UserRepository.ExistsByEmailResult | repository/user/postgres.go:99-122 | The same as `ExistsResult`, matching on the email alone, as the password handlers call it. |
| UserRepository.LookupResult | repository/user/postgres.go:140-218 | A lookup returns the first row of the table that matches, or the zero user with an error. Each error is distinct: begin, the aborted transaction after a failed table creation, the query, and not found. |
| UserRepository.UserStore.constructor | repository/user/postgres.go:15-17 | A new store has no table and no rows. |
| UserRepository.UserStore.CreateTableIfNonExistent | repository/user/postgres.go:234-252 | On success the table exists, and the rows are never touched, so a second call changes nothing. |
| UserRepository.UserStore.InsertUser | repository/user/postgres.go:35-83 | Uniqueness is kept. The error is `InsertError` of the old rows. On success exactly one `StoredRow` is appended to the old rows. On failure nothing in the store changes. |
| UserRepository.UserStore.UserExists | repository/user/postgres.go:99-122 | The result is `ExistsResult` of the current table. |
| UserRepository.UserStore.UserExistsByEmail | repository/user/postgres.go:99-122 | The result is `ExistsByEmailResult` of the current table. |
| UserRepository.UserStore.GetUserByID | repository/user/postgres.go:140-170 | The result is `ByIdResult`: a row of the table whose id is the UUID the text spells, or the zero user with an error. The store is not modified. |
| UserRepository.ByIdResult | repository/user/postgres.go:140-170 | `WHERE id = $1` compares UUIDs. The lookup succeeds exactly when there is no driver fault, the text spells a UUID, and some row has that UUID as its id; the row returned is then in the table and has that id. Text that is not a UUID gives the driver's "invalid input syntax for type uuid" error. A UUID that no row holds gives "user with ID … not found". Any error comes with the zero user. |
| UserRepository.UserStore.GetUserByEmail | repository/user/postgres.go:188-218 | The result is the row with that email, or the "user with email … not found" error. The store is not modified. |
| UserRepository.MissingTableCountsAsAbsent | repository/user/postgres.go:113-116 | The driver's error for a missing `users` table contains "does not exist", so it counts as "no user". |
| UserRepository.NotFoundErrorsSayNotFound | repository/user/postgres.go:163-164 | Both not-found errors contain "not found": the one by id here and the one by email at line 212. The user handler tests for that text. |
| UserRepository.UniqueEmailRow | repository/user/postgres.go:238-240 | In a table with unique emails, the lookup by email finds exactly the row holding that email. |
| UserRepository.InsertedUserIsFound | repository/user/postgres.go:35-218 | After a successful insert, the user exists by email and by email-or-username, and can be read back by email, and by its id (a fresh `uuid.New()` string, which is canonical), as the stored row. |
| UserRepository.DuplicateInsertFails | repository/user/postgres.go:70-74 | After a successful insert, a second user sharing its id, username or email is refused with "could not execute insert query", because the schema (lines 238-240) makes those columns unique. |
| PasswordSignUp.SignUp | handler/auth/password/sign_up.go:36-111 | Each outcome has its reply and store effect, checked in this order: <br>• a decode failure gives 400; <br>• a failed validation of the sanitized body gives 400 with the error text; <br>• an existence-check error gives 500; <br>• a taken email gives 400; <br>• a token failure gives 500; <br>• an insert failure gives 500. <br>In all of these the store is unchanged and no cookie is set. On success, exactly one hashed row is appended, the `token` cookie is set, and the reply is 200 with `{id, username, email}`. |
| PasswordSignIn.SignIn | handler/auth/password/sign_in.go:34-94 | A decode failure gives 400 with no cookie. After a successful decode, the expired `token` cookie comes first in every reply. Then, in order: <br>• an existence error gives 500; <br>• an unknown email gives 400; <br>• a lookup error gives 500; <br>• a hash mismatch gives 401; <br>• a token failure gives 500. <br>Otherwise the reply is 200 with a new `token` cookie and the full stored row. The store is not modified. |
| GoogleOauth.OauthConfig.constructor | handler/auth/oauth/google.go:21-30 | The global config starts with an empty client id, secret and redirect URL. |
| GoogleOauth.OauthConfig.Initialize | handler/auth/oauth/google.go:34-49 | An env failure returns the wrapped error and leaves the config unchanged. Otherwise the three fields are set from the environment. |
| GoogleOauth.GoogleSignIn | handler/auth/oauth/google.go:67-79 | On a config failure, a 500 JSON response is written and the state cookie and redirect still follow. Otherwise the state cookie is set and the client is redirected (307) to the auth-code URL for that state. |
| GoogleOauth.ConfigFailureHidesRedirect | handler/auth/oauth/google.go:69-78 | After a config failure, the client receives only the 500: the state cookie and the redirect are lost. |
| GoogleOauth.RedirectDelivered | handler/auth/oauth/google.go:75-78 | Without a config failure, the client receives a 307 with the Location and the state cookie. |
| GoogleOauth.GetGoogleUserData | handler/auth/oauth/google.go:162-200 | The profile maps to a user with a fresh id, username = name, email = email and password = the Google id. Exchange, fetch and decode failures each give their own error. |
| GoogleOauth.GoogleSignInCallback | handler/auth/oauth/google.go:96-150 | A missing state cookie panics. A state mismatch or a profile failure redirects to `failure`. Otherwise: <br>• an existing email or username gives 409; <br>• a failed existence query counts as absent; <br>• an insert failure gives 500. <br>The store is unchanged in all these cases. Otherwise one row is appended before the token is made, and a token failure still gives 500. Success gives 200 with the `token` cookie and `{id, username, email}`. |
| GoogleOauth.MissingStateCookieAborts | handler/auth/oauth/google.go:98-101 | Without the `oauthstate` cookie, the client gets no response. |
| LegacyAuth.LowercaseEmail | handler/auth.go:41 | Only the email changes, and it is lower-cased byte by byte. |
| LegacyAuth.SignUp | handler/auth.go:30-82 | A decode failure gives 400. Then the email is lower-cased, and: <br>• a validation failure gives 400 with the error text; <br>• an existence error gives 500; <br>• a taken email gives 400; <br>• an insert failure gives 500. <br>The store is unchanged in all of these. On success, one hashed row is appended and the reply is 200 with the user as built, plaintext password included, and no cookie. |
| LegacyAuth.LogOnly | handler/auth.go:84-90 | The stub sign-in and sign-out write nothing, so the client receives an empty 200. |
| UserHandler.ReplyFor | handler/user.go:26-45 | An error containing "not found" gives 400 "A user with that id doesn't exist". Any other error gives 500. Success gives 200 with the id in the message and the full user record as payload. |
| UserHandler.GetUserByID | handler/user.go:26-45 | The reply is `ReplyFor` of the store's lookup by id, and the store is not modified. |
| UserHandler.StatusWithoutFaults | handler/user.go:31-44 | With a healthy database, the status is 200 exactly when the text spells a UUID that some row holds. The payload is then a row of the table with that id. A UUID that no row holds gives 400 "no such user". Text that is not a UUID gives 400 when the driver's syntax error contains "not found" and 500 otherwise. |
| UserHandler.SpellingDoesNotMatter | handler/user.go:26-45 | Two spellings of the same UUID, such as upper- and lower-case digits, give the same user and the same status. |
| UserHandler.DriverErrorMentioningNotFound | handler/user.go:32-37 | Any driver error whose text contains "not found" is reported as a missing user (400), not as a server error. |
| SharedSignOut.SignOut | handler/auth/shared/sign_out.go:26-32 | The expired `token` cookie is written first. The client receives it with 200 "Successfully signed-out" and a null payload. |
| Scenarios.SignUpTwice | handler/auth/password/sign_up.go:59-72 | After one successful sign-up, a second sign-up with the same sanitized email is refused with 400 "A user with that email already exists", and the store holds one more row. |
| Scenarios.SignUpThenSignIn | handler/auth/password/sign_in.go:46-93 | After a successful sign-up, signing in with the same body succeeds. The client gets the stored row, the expired cookie and then the new token cookie. |

## Left out

- bcrypt (util/hash.go) and `CompareWithHash` are parameters (`Hasher`, `compareWithHash`). The cost options are not modelled.
- JWT signing and parsing (HS256 per section 3.2 of RFC 7518, JWS per RFC 7515) are parameters (`Signer`, `Parser`). The signing method and the secret key are passed through, not interpreted.
- The go-sanitize functions are parameters of `Request.SanitizeUserInput`.
- The JSON text produced by `json.Marshal` is left out; the `Encoder` parameter yields the body or an error text. The request body decoder is an `Option`: `None` is a decode failure.
- The OAuth2 code exchange (section 4.1.3 of RFC 6749), the userinfo HTTP fetch and its JSON decoding are one parameter, `GoogleOauth.ProfileFetch`. `AuthCodeURL` is a parameter.
- The clock, the random bytes and `uuid.New()` are parameters. A short `rand.Read` is modelled by an entropy sequence shorter than 16 bytes. The read error is ignored, as in the source.
- The SQL driver is modelled only through the committed table and the `Faults` record of which step fails.
  - The text of driver errors is a parameter.
  - Postgres's `uuid` input function is a parameter (`UserRepository.UuidInput`). It gives the canonical text of the UUID a string spells, or nothing. Which spellings it accepts is not modelled.
  - The `VARCHAR(255)` limit counts bytes here, not characters.
- The transactions that `GetUserByID`/`GetUserByEmail` open and never close are left out. They hold no rows, so only the committed state matters.
- The deferred rollback's own error is left out, because the source discards it.
- `GoText.ToLower`: models `strings.ToLower` on ASCII bytes only; non-ASCII bytes are kept as they are, without Unicode case mapping.
- The regular-expression compile failure in util/email.go:25-29 cannot happen with the fixed pattern and is not modelled.
- `http.Redirect`'s HTML body and the resolution of the relative `failure` URL are left out. `Http.Deliver` drops a redirect issued after the status line entirely, rather than writing its body.
- Concurrency: concurrent sign-ups racing on the same email, and the global OAuth config being written by concurrent requests. The model is sequential.
- Logging and the `fmt.Println` calls are left out. The `Home` handlers only print.
- handler/auth/auth.go, service/auth.go and service/database.go only delegate or set fields, so they are not modelled. handler/auth/auth.go:92 also calls `GoogleSignIn` with three arguments, although it is declared with two. The model follows the declaration at handler/auth/oauth/google.go:67.
- The startup and routing code is not part of this model: server.go, application/app.go, database/postgres.go, route/ and util/headers.go. The routes in this revision mount the older `handler.Auth` at `/auth/sign-up` and `/auth/sign-out` (route/routes.go:51, route/auth/auth_routes.go:31,33). No route mounts the newer handlers, which are reachable only through `AuthHandler` (handler/auth/auth.go:55,141). `Cookies.SignOutDefaultPath` and `Cookies.DeletionFromSignOutKeepsRootToken` assume that the newer sign-up and sign-out handlers are mounted at those same paths, and use `/auth/sign-out` as a constant.
- The `SignUpRequestBody` used by the newer sign-up handler is modelled as `Request.AuthRequestBody`, since the two have the same three fields.
