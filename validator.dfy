/**
 * validator/auth_input.go: `ValidateUserInput` runs three checks in a fixed
 * order and returns the first failure's error text, or nil. The body is a
 * value here, so it is only read.
 */
module Validator {
  import opened GoText
  import opened Wrappers
  import opened Request
  import Email
  import Title

  /** The prefix every error text of the repository starts with. */
  const FailPrefix: GoString := "[FAIL]: "

  const EmptyFieldError: GoString := FailPrefix + "username, email or password is empty"
  const InvalidEmailError: GoString := FailPrefix + "invalid email provided"
  const ShortPasswordError: GoString := FailPrefix + "password field must contain at least 8 characters"

  /** The minimum password length, in bytes. */
  const MinPasswordLength := 8

  /** validator/auth_input.go `ValidateUserInput`; `None` is Go's nil error. */
  function ValidateUserInput(body: AuthRequestBody): (err: Option<GoString>)
    ensures err == None <==>
      body.username != "" && body.email != "" && body.password != ""
      && Email.MatchesPattern(body.email) && |body.password| >= MinPasswordLength
    ensures err == Some(EmptyFieldError) <==>
      body.username == "" || body.email == "" || body.password == ""
    ensures err == Some(InvalidEmailError) <==>
      body.username != "" && body.email != "" && body.password != ""
      && !Email.MatchesPattern(body.email)
    ensures err == Some(ShortPasswordError) <==>
      body.username != "" && body.email != "" && body.password != ""
      && Email.MatchesPattern(body.email) && |body.password| < MinPasswordLength
  {
    Email.IsValidEmailMatchesPattern(body.email);
    if body.username == "" || body.email == "" || body.password == "" then Some(EmptyFieldError)
    else if !Email.IsValidEmail(body.email) then Some(InvalidEmailError)
    else if |body.password| < MinPasswordLength then Some(ShortPasswordError)
    else None
  }

  /** Every error text starts with '[', so capitalizing it, as the handlers do, changes nothing. */
  lemma CapitalizedErrorUnchanged(body: AuthRequestBody)
    requires ValidateUserInput(body).Some?
    ensures Title.CapitalizeFirstLetter(ValidateUserInput(body).value) == ValidateUserInput(body).value
  {
    var e := ValidateUserInput(body).value;
    assert e[0] == '[' by {
      assert EmptyFieldError[0] == '[';
      assert InvalidEmailError[0] == '[';
      assert ShortPasswordError[0] == '[';
    }
    Title.CapitalizeKeepsNonLowerAscii(e);
  }
}
