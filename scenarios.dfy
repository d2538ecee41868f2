/**
 * Requests in sequence against one store: what the handlers promise each
 * other through the table.
 */
module Scenarios {
  import opened GoText
  import opened Wrappers
  import opened Model
  import opened Request
  import opened Validator
  import opened Cookies
  import opened Http
  import opened Responses
  import opened UserRepository
  import opened Collaborators
  import PasswordSignUp
  import PasswordSignIn
  import GoogleOauth

  /**
   * A second sign-up with the same email, after one that succeeded, is
   * refused as a duplicate and leaves the store as the first one left it.
   */
  method SignUpTwice(store: UserStore, first: AuthRequestBody, second: AuthRequestBody, svc: Services, clock: Clock,
                     id1: Uuid, id2: Uuid, faults: Faults)
    returns (reply1: Reply, reply2: Reply)
    requires store.Valid()
    requires faults.existsQuery.None?
    requires SanitizeUserInput(svc.sanitizers, first).email == SanitizeUserInput(svc.sanitizers, second).email
    requires ValidateUserInput(SanitizeUserInput(svc.sanitizers, second)).None?
    modifies store
    ensures reply1.status == StatusOK ==>
      reply2 == Reply([], StatusBadRequest, PasswordSignUp.EmailTakenMessage, NullPayload)
      && |store.rows| == |old(store.rows)| + 1
  {
    var writes;
    reply1, writes := PasswordSignUp.SignUp(store, Some(first), svc, clock, id1, faults);
    ghost var afterFirst := store.rows;
    reply2, writes := PasswordSignUp.SignUp(store, Some(second), svc, clock, id2, faults);
    if reply1.status == StatusOK {
      ghost var email := SanitizeUserInput(svc.sanitizers, first).email;
      assert afterFirst[|afterFirst| - 1].email == email;
    }
  }

  /**
   * Signing in with the request that signed up succeeds, with the stored row
   * (password hash included) as payload, provided bcrypt's comparison accepts
   * the hash it made of that password and a token is issued.
   */
  method SignUpThenSignIn(store: UserStore, body: AuthRequestBody, svc: Services, clock: Clock, freshId: Uuid, faults: Faults)
    returns (signedUp: Reply, signedIn: Reply)
    requires store.Valid()
    requires faults == NoFaults.(insert := faults.insert, commit := faults.commit)
    requires var b := SanitizeUserInput(svc.sanitizers, body);
      svc.hash(b.password).Ok? ==> svc.compareWithHash(svc.hash(b.password).value, b.password)
    requires IssueToken(svc, clock, freshId).Ok?
    modifies store
    ensures signedUp.status == StatusOK ==>
      var b := SanitizeUserInput(svc.sanitizers, body);
      svc.hash(b.password).Ok? && signedIn.status == StatusOK
      && signedIn.payload == FullUser(StoredRow(User(freshId, b.username, b.email, b.password), svc.hash(b.password).value))
      && signedIn.cookies == [ExpireCookie(clock.now, TokenCookieName), CreateTokenCookie(IssueToken(svc, clock, freshId).value)]
  {
    var writes;
    signedUp, writes := PasswordSignUp.SignUp(store, Some(body), svc, clock, freshId, faults);
    if signedUp.status == StatusOK {
      ghost var b := SanitizeUserInput(svc.sanitizers, body);
      ghost var user := User(freshId, b.username, b.email, b.password);
      ghost var before := store.rows[..|store.rows| - 1];
      assert store.rows == before + [StoredRow(user, svc.hash(b.password).value)];
      InsertedUserIsFound(before, user, faults, svc.hash, (s: GoString) => Some(s), NoFaults);
    }
    signedIn, writes := PasswordSignIn.SignIn(store, Some(body), svc, clock, faults);
  }
}
