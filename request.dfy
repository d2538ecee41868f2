/**
 * util/request.go: the decoded auth request body and its sanitization. The
 * three go-sanitize calls are a library whose behaviour is not part of this
 * model, so they are passed in as functions.
 */
module Request {
  import opened GoText

  /** `util.AuthRequestBody`. */
  datatype AuthRequestBody = AuthRequestBody(username: GoString, email: GoString, password: GoString)

  /** `sanitize.Email`, `sanitize.Alpha` and `sanitize.AlphaNumeric` (each called with `false`). */
  datatype Sanitizers = Sanitizers(
    email: GoString -> GoString,
    alpha: GoString -> GoString,
    alphaNumeric: GoString -> GoString)

  /** util/request.go `SanitizeUserInput`: each field through its own sanitizer. */
  function SanitizeUserInput(san: Sanitizers, body: AuthRequestBody): (r: AuthRequestBody)
    ensures r.email == san.email(body.email)
    ensures r.username == san.alpha(body.username)
    ensures r.password == san.alphaNumeric(body.password)
  {
    AuthRequestBody(san.alpha(body.username), san.email(body.email), san.alphaNumeric(body.password))
  }
}
