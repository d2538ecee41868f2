/**
 * repository/user/postgres.go: the `users` table as in-memory state. A
 * `UserStore` is the table's committed contents; a transaction works on a
 * private copy (another `UserStore`) that a commit copies back and a rollback
 * simply drops. What the database driver does on a given request (a failure
 * to begin, to create the table, to insert, to commit, or to run a query) is
 * passed in as `Faults`, and bcrypt's `GenerateFromPassword` as `Hasher`.
 */
module UserRepository {
  import opened GoText
  import opened Wrappers
  import opened Model

  /** Driver failures on one request, each with the error text the driver reports. */
  datatype Faults = Faults(
    begin: Option<GoString>,
    createTable: Option<GoString>,
    insert: Option<GoString>,
    commit: Option<GoString>,
    existsQuery: Option<GoString>,
    lookupQuery: Option<GoString>)

  const NoFaults := Faults(None, None, None, None, None, None)

  /** `util.GenerateHash` with the base cost: bcrypt's hash text, or its error. */
  type Hasher = GoString -> Result<GoString, GoString>

  const BeginFailedPrefix: GoString := "[FAIL]: could not begin database transaction: "
  const CreateTableFailedPrefix: GoString := "[FAIL]: could not create users table: "
  const InsertFailedError: GoString := "[FAIL]: could not execute insert query"
  const CommitFailedError: GoString := "[FAIL]: could not commit transaction"
  const ExistsCheckFailedError: GoString := "[FAIL]: could not check if user already exists"
  const QueryFailedPrefix: GoString := "[FAIL]: could not execute query: "
  const DoesNotExist: GoString := "does not exist"
  const NotFound: GoString := "not found"
  /** PostgreSQL's error for a query on the `users` table before it is created. */
  const MissingTableError: GoString := "pq: relation \"users\" " + DoesNotExist
  /** PostgreSQL's error for any statement after a failed one in the same transaction. */
  const AbortedTransactionError: GoString := "pq: current transaction is aborted, commands ignored until end of transaction block"

  function NotFoundByIdError(id: GoString): GoString
  {
    "[FAIL]: user with ID " + id + " " + NotFound
  }

  function NotFoundByEmailError(email: GoString): GoString
  {
    "[FAIL]: user with email " + email + " " + NotFound
  }

  /** The zero `model.User` the lookups return with an error. */
  const ZeroUser := User("00000000-0000-0000-0000-000000000000", "", "", "")

  /** The column length of `username`, `email` and `password` (VARCHAR(255)). */
  const ColumnLimit := 255

  /** The UNIQUE constraints of the schema: id (primary key), username and email. */
  predicate UniqueRows(rows: seq<User>)
  {
    forall i, j :: 0 <= i < j < |rows| ==>
      rows[i].id != rows[j].id && rows[i].username != rows[j].username && rows[i].email != rows[j].email
  }

  /** A row that some existing row would clash with under those constraints. */
  predicate Clashes(rows: seq<User>, u: User)
  {
    exists i :: 0 <= i < |rows| && (rows[i].id == u.id || rows[i].username == u.username || rows[i].email == u.email)
  }

  predicate FitsColumns(u: User)
  {
    |u.username| <= ColumnLimit && |u.email| <= ColumnLimit && |u.password| <= ColumnLimit
  }

  /** The row the INSERT of `user` writes: the password replaced by its hash. */
  function StoredRow(user: User, hashed: GoString): (row: User)
    ensures row.id == user.id && row.username == user.username && row.email == user.email && row.password == hashed
  {
    user.(password := hashed)
  }

  /** The first row satisfying `matches`, or -1: the row a `QueryRow ... WHERE` scans to. */
  function FindFirst(rows: seq<User>, matches: User -> bool): (k: int)
    ensures -1 <= k < |rows|
    ensures k >= 0 ==> matches(rows[k]) && forall j :: 0 <= j < k ==> !matches(rows[j])
    ensures k < 0 ==> forall j :: 0 <= j < |rows| ==> !matches(rows[j])
    decreases |rows|
  {
    if |rows| == 0 then -1
    else if matches(rows[0]) then 0
    else
      var k := FindFirst(rows[1..], matches);
      if k < 0 then -1 else k + 1
  }

  /** A clash-free append keeps the constraints. */
  lemma AppendKeepsUnique(rows: seq<User>, u: User)
    requires UniqueRows(rows) && !Clashes(rows, u)
    ensures UniqueRows(rows + [u])
  {
    var r := rows + [u];
    forall i, j | 0 <= i < j < |r|
      ensures r[i].id != r[j].id && r[i].username != r[j].username && r[i].email != r[j].email
    {
      if j == |rows| {
        assert r[i] == rows[i];
      }
    }
  }

  // ---------------------------------------------------------------------
  // What each repository call returns, as a function of the committed table.

  /**
   * The error `InsertUser` returns, `None` for success. The INSERT fails on a
   * clash with an existing id, username or email, on a value too long for its
   * column, or on a driver error; all three give the same message.
   */
  function InsertError(rows: seq<User>, user: User, f: Faults, hash: Hasher): (err: Option<GoString>)
    ensures err.None? <==>
      f.begin.None? && f.createTable.None? && hash(user.password).Ok?
      && !Clashes(rows, StoredRow(user, hash(user.password).value)) && FitsColumns(StoredRow(user, hash(user.password).value))
      && f.insert.None? && f.commit.None?
    ensures f.begin.Some? ==> err == Some(BeginFailedPrefix + f.begin.value)
    ensures f.begin.None? && f.createTable.Some? ==> err == Some(CreateTableFailedPrefix + f.createTable.value)
    ensures f.begin.None? && f.createTable.None? && hash(user.password).Err? ==> err == Some(hash(user.password).error)
    ensures f.begin.None? && f.createTable.None? && hash(user.password).Ok? ==>
      var row := StoredRow(user, hash(user.password).value);
      (Clashes(rows, row) || !FitsColumns(row) || f.insert.Some? ==> err == Some(InsertFailedError))
      && (!Clashes(rows, row) && FitsColumns(row) && f.insert.None? && f.commit.Some? ==> err == Some(CommitFailedError))
  {
    if f.begin.Some? then Some(BeginFailedPrefix + f.begin.value)
    else if f.createTable.Some? then Some(CreateTableFailedPrefix + f.createTable.value)
    else match hash(user.password)
      case Err(e) => Some(e)
      case Ok(hashed) =>
        var row := StoredRow(user, hashed);
        if Clashes(rows, row) || !FitsColumns(row) || f.insert.Some? then Some(InsertFailedError)
        else if f.commit.Some? then Some(CommitFailedError)
        else None
  }

  /**
   * How a failed existence query is reported: an error mentioning "does not
   * exist" counts as "no user", any other as a failure.
   */
  function ExistsQueryFailed(queryError: GoString): (r: (bool, Option<GoString>))
    ensures !r.0
    ensures r.1 == None <==> Contains(queryError, DoesNotExist)
    ensures r.1.Some? ==> r.1.value == ExistsCheckFailedError
  {
    if Contains(queryError, DoesNotExist) then (false, None) else (false, Some(ExistsCheckFailedError))
  }

  /** The error the existence query meets: the driver's, or the missing-table error. */
  function ExistsQueryError(present: bool, fault: Option<GoString>): Option<GoString>
  {
    if fault.Some? then fault else if !present then Some(MissingTableError) else None
  }

  /** `UserExists(email, username)` as declared: a row with that email OR that username. */
  function ExistsResult(present: bool, rows: seq<User>, email: GoString, username: GoString, fault: Option<GoString>): (r: (bool, Option<GoString>))
    ensures fault.None? ==> r.1 == None && (r.0 <==> present && exists i :: 0 <= i < |rows| && (rows[i].email == email || rows[i].username == username))
    ensures fault.Some? ==> !r.0 && (r.1 == None <==> Contains(fault.value, DoesNotExist))
  {
    MissingTableCountsAsAbsent();
    match ExistsQueryError(present, fault)
    case Some(e) => ExistsQueryFailed(e)
    case None => (exists i :: 0 <= i < |rows| && (rows[i].email == email || rows[i].username == username), None)
  }

  /** The one-argument `UserExists(email)` the handlers call: the same query on the email alone. */
  function ExistsByEmailResult(present: bool, rows: seq<User>, email: GoString, fault: Option<GoString>): (r: (bool, Option<GoString>))
    ensures fault.None? ==> r.1 == None && (r.0 <==> present && exists i :: 0 <= i < |rows| && rows[i].email == email)
    ensures fault.Some? ==> !r.0 && (r.1 == None <==> Contains(fault.value, DoesNotExist))
  {
    MissingTableCountsAsAbsent();
    match ExistsQueryError(present, fault)
    case Some(e) => ExistsQueryFailed(e)
    case None => (exists i :: 0 <= i < |rows| && rows[i].email == email, None)
  }

  /**
   * A lookup (`GetUserByID`, `GetUserByEmail`): its transaction creates the
   * table, ignoring an error, so a failed creation makes the query itself fail
   * as part of an aborted transaction. `notFound` is the lookup's own message.
   */
  function LookupResult(rows: seq<User>, matches: User -> bool, notFound: GoString, f: Faults): (r: (User, Option<GoString>))
    ensures r.1.None? <==> f.begin.None? && f.createTable.None? && f.lookupQuery.None? && FindFirst(rows, matches) >= 0
    ensures r.1.None? ==> r.0 in rows && matches(r.0) && r.0 == rows[FindFirst(rows, matches)]
    ensures r.1.Some? ==> r.0 == ZeroUser
    ensures f.begin.Some? ==> r.1 == Some(BeginFailedPrefix + f.begin.value)
    ensures f.begin.None? && f.createTable.Some? ==> r.1 == Some(QueryFailedPrefix + AbortedTransactionError)
    ensures f.begin.None? && f.createTable.None? && f.lookupQuery.Some? ==> r.1 == Some(QueryFailedPrefix + f.lookupQuery.value)
    ensures f.begin.None? && f.createTable.None? && f.lookupQuery.None? && FindFirst(rows, matches) < 0 ==> r.1 == Some(notFound)
  {
    if f.begin.Some? then (ZeroUser, Some(BeginFailedPrefix + f.begin.value))
    else if f.createTable.Some? then (ZeroUser, Some(QueryFailedPrefix + AbortedTransactionError))
    else if f.lookupQuery.Some? then (ZeroUser, Some(QueryFailedPrefix + f.lookupQuery.value))
    else
      var k := FindFirst(rows, matches);
      if k < 0 then (ZeroUser, Some(notFound)) else (rows[k], None)
  }

  function HasId(id: GoString): User -> bool
  {
    (u: User) => u.id == id
  }

  function HasEmail(email: GoString): User -> bool
  {
    (u: User) => u.email == email
  }

  /**
   * PostgreSQL's input function for the `uuid` column type: the canonical text
   * (lower-case, hyphenated, as `uuid.UUID.String` writes it) of the UUID a
   * string spells, or `None` when the string is not a UUID. Other spellings of
   * the same UUID, such as upper-case digits, are read as that UUID.
   */
  type UuidInput = GoString -> Option<Uuid>

  /** The driver's error for a query parameter that is not a UUID. */
  function InvalidUuidError(id: GoString): GoString
  {
    "pq: invalid input syntax for type uuid: \"" + id + "\""
  }

  /** The query failure of a lookup by id: a driver fault, else an id that is not a UUID. */
  function IdQueryFault(id: GoString, parse: UuidInput, f: Faults): (fault: Option<GoString>)
    ensures fault.None? <==> f.lookupQuery.None? && parse(id).Some?
    ensures f.lookupQuery.Some? ==> fault == f.lookupQuery
    ensures f.lookupQuery.None? && parse(id).None? ==> fault == Some(InvalidUuidError(id))
  {
    if f.lookupQuery.Some? then f.lookupQuery
    else if parse(id).None? then Some(InvalidUuidError(id))
    else None
  }

  /** The canonical id a lookup compares the `id` column with. */
  function IdKey(id: GoString, parse: UuidInput): GoString
  {
    if parse(id).Some? then parse(id).value else id
  }

  /**
   * `GetUserByID`: `WHERE id = $1` compares UUIDs, so the row found is the
   * one whose id is the UUID the request's text spells.
   */
  function ByIdResult(rows: seq<User>, id: GoString, parse: UuidInput, f: Faults): (r: (User, Option<GoString>))
    ensures r.1.None? <==>
      f.begin.None? && f.createTable.None? && f.lookupQuery.None? && parse(id).Some?
      && exists i :: 0 <= i < |rows| && rows[i].id == parse(id).value
    ensures r.1.None? ==> r.0 in rows && r.0.id == parse(id).value
    ensures r.1.Some? ==> r.0 == ZeroUser
    ensures f.begin.None? && f.createTable.None? && f.lookupQuery.None? && parse(id).None? ==>
      r.1 == Some(QueryFailedPrefix + InvalidUuidError(id))
    ensures (f.begin.None? && f.createTable.None? && f.lookupQuery.None? && parse(id).Some?
             && forall i :: 0 <= i < |rows| ==> rows[i].id != parse(id).value)
            ==> r.1 == Some(NotFoundByIdError(id))
  {
    var key := IdKey(id, parse);
    HasIdFound(rows, key);
    LookupResult(rows, HasId(key), NotFoundByIdError(id), f.(lookupQuery := IdQueryFault(id, parse, f)))
  }

  lemma HasIdFound(rows: seq<User>, key: GoString)
    ensures FindFirst(rows, HasId(key)) >= 0 <==> exists i :: 0 <= i < |rows| && rows[i].id == key
  {
    if exists i :: 0 <= i < |rows| && rows[i].id == key {
      var i :| 0 <= i < |rows| && rows[i].id == key;
      assert HasId(key)(rows[i]);
    }
  }

  /** `GetUserByEmail`: the row with that email, or an error. */
  function ByEmailResult(rows: seq<User>, email: GoString, f: Faults): (User, Option<GoString>)
  {
    LookupResult(rows, HasEmail(email), NotFoundByEmailError(email), f)
  }

  class UserStore {
    /** The `users` table has been created. */
    var present: bool
    /** Its rows, in insertion order. */
    var rows: seq<User>

    ghost predicate Valid()
      reads this
    {
      (!present ==> rows == []) && UniqueRows(rows)
    }

    /** A database in which the table has not been created yet. */
    constructor ()
      ensures !present && rows == [] && Valid()
    {
      present := false;
      rows := [];
    }

    /** `BeginTx`: a transaction starts from a copy of the committed table. */
    constructor Begin(db: UserStore)
      ensures present == db.present && rows == db.rows
    {
      present := db.present;
      rows := db.rows;
    }

    /** `createTableIfNonExistent`: CREATE TABLE IF NOT EXISTS leaves existing rows alone. */
    method CreateTableIfNonExistent(fault: Option<GoString>) returns (err: Option<GoString>)
      modifies this
      ensures fault.None? ==> err == None && present
      ensures fault.Some? ==> err == Some(CreateTableFailedPrefix + fault.value) && present == old(present)
      ensures rows == old(rows)
    {
      if fault.Some? {
        return Some(CreateTableFailedPrefix + fault.value);
      }
      present := true;
      return None;
    }

    /** `tx.Commit`: the transaction's table becomes the committed one. */
    method Commit(tx: UserStore)
      modifies this
      ensures present == tx.present && rows == tx.rows
    {
      present := tx.present;
      rows := tx.rows;
    }

    /**
     * `InsertUser`: create the table, hash the password, insert, commit. Every
     * failure returns before the commit, so the deferred rollback discards the
     * transaction and the committed table is as before. (The rollback closure
     * assigns an error that is never returned, so it changes nothing.)
     */
    method InsertUser(user: User, f: Faults, hash: Hasher) returns (err: Option<GoString>)
      requires Valid()
      modifies this
      ensures Valid()
      ensures err == InsertError(old(rows), user, f, hash)
      ensures err.None? ==> present && rows == old(rows) + [StoredRow(user, hash(user.password).value)]
      ensures err.Some? ==> unchanged(this)
    {
      if f.begin.Some? {
        return Some(BeginFailedPrefix + f.begin.value);
      }
      var tx := new UserStore.Begin(this);
      err := tx.CreateTableIfNonExistent(f.createTable);
      if err.Some? {
        return err;
      }
      var hashed := hash(user.password);
      if hashed.Err? {
        return Some(hashed.error);
      }
      var row := StoredRow(user, hashed.value);
      if Clashes(tx.rows, row) || !FitsColumns(row) || f.insert.Some? {
        return Some(InsertFailedError);
      }
      tx.rows := tx.rows + [row];
      if f.commit.Some? {
        return Some(CommitFailedError);
      }
      AppendKeepsUnique(rows, row);
      Commit(tx);
      return None;
    }

    /** `UserExists(email, username)`, as declared in the repository. */
    method UserExists(email: GoString, username: GoString, fault: Option<GoString>) returns (found: bool, err: Option<GoString>)
      ensures (found, err) == ExistsResult(present, rows, email, username, fault)
    {
      var queryError := ExistsQueryError(present, fault);
      if queryError.Some? {
        if Contains(queryError.value, DoesNotExist) {
          return false, None;
        }
        return false, Some(ExistsCheckFailedError);
      }
      found := exists i :: 0 <= i < |rows| && (rows[i].email == email || rows[i].username == username);
      err := None;
    }

    /** The one-argument `UserExists(email)` the handlers call. */
    method UserExistsByEmail(email: GoString, fault: Option<GoString>) returns (found: bool, err: Option<GoString>)
      ensures (found, err) == ExistsByEmailResult(present, rows, email, fault)
    {
      var queryError := ExistsQueryError(present, fault);
      if queryError.Some? {
        if Contains(queryError.value, DoesNotExist) {
          return false, None;
        }
        return false, Some(ExistsCheckFailedError);
      }
      found := exists i :: 0 <= i < |rows| && rows[i].email == email;
      err := None;
    }

    /**
     * The transaction a lookup opens and never commits: the committed table is
     * untouched. Returns the row found, or the error.
     */
    method Lookup(matches: User -> bool, notFound: GoString, f: Faults) returns (user: User, err: Option<GoString>)
      ensures (user, err) == LookupResult(rows, matches, notFound, f)
    {
      if f.begin.Some? {
        return ZeroUser, Some(BeginFailedPrefix + f.begin.value);
      }
      var tx := new UserStore.Begin(this);
      var _ := tx.CreateTableIfNonExistent(f.createTable);
      if f.createTable.Some? {
        return ZeroUser, Some(QueryFailedPrefix + AbortedTransactionError);
      }
      if f.lookupQuery.Some? {
        return ZeroUser, Some(QueryFailedPrefix + f.lookupQuery.value);
      }
      var k := FindFirst(tx.rows, matches);
      if k < 0 {
        return ZeroUser, Some(notFound);
      }
      return tx.rows[k], None;
    }

    /** `GetUserByID`. */
    method GetUserByID(id: GoString, parse: UuidInput, f: Faults) returns (user: User, err: Option<GoString>)
      ensures (user, err) == ByIdResult(rows, id, parse, f)
    {
      user, err := Lookup(HasId(IdKey(id, parse)), NotFoundByIdError(id), f.(lookupQuery := IdQueryFault(id, parse, f)));
    }

    /** `GetUserByEmail`. */
    method GetUserByEmail(email: GoString, f: Faults) returns (user: User, err: Option<GoString>)
      ensures (user, err) == ByEmailResult(rows, email, f)
    {
      user, err := Lookup(HasEmail(email), NotFoundByEmailError(email), f);
    }
  }

  /** The driver's missing-table error is one the existence check swallows. */
  lemma MissingTableCountsAsAbsent()
    ensures Contains(MissingTableError, DoesNotExist)
  {
    ContainsInSuffix("pq: relation \"users\" ", DoesNotExist, DoesNotExist);
  }

  /** Both "not found" errors are recognisable by their text. */
  lemma NotFoundErrorsSayNotFound(id: GoString, email: GoString)
    ensures Contains(NotFoundByIdError(id), NotFound)
    ensures Contains(NotFoundByEmailError(email), NotFound)
  {
    ContainsInSuffix("[FAIL]: user with ID " + id + " ", NotFound, NotFound);
    ContainsInSuffix("[FAIL]: user with email " + email + " ", NotFound, NotFound);
  }

  /** Under the constraints, a lookup by email finds exactly the row with that email. */
  lemma UniqueEmailRow(rows: seq<User>, u: User, email: GoString)
    requires UniqueRows(rows) && u in rows && u.email == email
    ensures FindFirst(rows, HasEmail(email)) >= 0
    ensures rows[FindFirst(rows, HasEmail(email))] == u
  {
    var k := FindFirst(rows, HasEmail(email));
    var i :| 0 <= i < |rows| && rows[i] == u;
    assert k >= 0;
  }

  /**
   * A successful insert is visible: the new row answers the email-only and
   * the two-column existence checks and the lookups by id and by email.
   */
  lemma InsertedUserIsFound(rows: seq<User>, user: User, f: Faults, hash: Hasher, parse: UuidInput, g: Faults)
    requires UniqueRows(rows) && InsertError(rows, user, f, hash).None?
    requires parse(user.id) == Some(user.id)
    requires g == NoFaults
    ensures var after := rows + [StoredRow(user, hash(user.password).value)];
      ExistsByEmailResult(true, after, user.email, None) == (true, None)
      && ExistsResult(true, after, user.email, user.username, None) == (true, None)
      && ByIdResult(after, user.id, parse, g) == (StoredRow(user, hash(user.password).value), None)
      && ByEmailResult(after, user.email, g) == (StoredRow(user, hash(user.password).value), None)
  {
    var row := StoredRow(user, hash(user.password).value);
    var after := rows + [row];
    assert after[|rows|] == row;
    AppendKeepsUnique(rows, row);
    UniqueEmailRow(after, row, user.email);
    assert IdKey(user.id, parse) == user.id;
    var k := FindFirst(after, HasId(user.id));
    assert k >= 0;
  }

  /** A second insert with the same email, username or id fails and changes nothing. */
  lemma DuplicateInsertFails(rows: seq<User>, first: User, second: User, hash: Hasher, f: Faults)
    requires UniqueRows(rows) && InsertError(rows, first, f, hash).None?
    requires second.email == first.email || second.username == first.username || second.id == first.id
    requires hash(second.password).Ok?
    ensures InsertError(rows + [StoredRow(first, hash(first.password).value)], second, f, hash) == Some(InsertFailedError)
  {
    var after := rows + [StoredRow(first, hash(first.password).value)];
    assert after[|rows|] == StoredRow(first, hash(first.password).value);
    assert Clashes(after, StoredRow(second, hash(second.password).value));
  }
}
