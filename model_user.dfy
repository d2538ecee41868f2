/** model/user.go: the user record, which is also a row of the `users` table. */
module Model {
  import opened GoText

  /** A `uuid.UUID`, written in its canonical text form. */
  type Uuid = GoString

  /** `model.User`; `password` holds the plaintext before insertion and the hash once stored. */
  datatype User = User(id: Uuid, username: GoString, email: GoString, password: GoString)
}
