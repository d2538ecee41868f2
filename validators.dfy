/**
 * validators/auth_input.go: a second copy of `ValidateUserInput` over the
 * package's own unexported `body` struct, proved to agree with
 * validator/auth_input.go.
 */
module Validators {
  import opened GoText
  import opened Wrappers
  import Request
  import Email
  import Validator

  /** The unexported `body` struct of validators/auth_input.go. */
  datatype Body = Body(username: GoString, email: GoString, password: GoString)

  const FailPrefix: GoString := "[FAIL]: "

  const EmptyFieldError: GoString := FailPrefix + "username, email or password is empty"
  const InvalidEmailError: GoString := FailPrefix + "invalid email provided"
  const ShortPasswordError: GoString := FailPrefix + "password field must contain at least 8 characters"

  /** validators/auth_input.go `ValidateUserInput`. */
  function ValidateUserInput(body: Body): (err: Option<GoString>)
    ensures err == None <==>
      body.username != "" && body.email != "" && body.password != ""
      && Email.MatchesPattern(body.email) && |body.password| >= 8
    ensures err == Some(EmptyFieldError) <==>
      body.username == "" || body.email == "" || body.password == ""
    ensures err == Some(InvalidEmailError) <==>
      body.username != "" && body.email != "" && body.password != ""
      && !Email.MatchesPattern(body.email)
    ensures err == Some(ShortPasswordError) <==>
      body.username != "" && body.email != "" && body.password != ""
      && Email.MatchesPattern(body.email) && |body.password| < 8
  {
    Email.IsValidEmailMatchesPattern(body.email);
    if body.username == "" || body.email == "" || body.password == "" then Some(EmptyFieldError)
    else if !Email.IsValidEmail(body.email) then Some(InvalidEmailError)
    else if |body.password| < 8 then Some(ShortPasswordError)
    else None
  }

  /** Both copies give the same result, error text included, on the same three fields. */
  lemma SameAsValidator(username: GoString, email: GoString, password: GoString)
    ensures ValidateUserInput(Body(username, email, password))
      == Validator.ValidateUserInput(Request.AuthRequestBody(username, email, password))
  {
  }
}
