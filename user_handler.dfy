/**
 * handler/user.go: `GET /user/{id}`. The lookup's error is classified by its
 * text: one mentioning "not found" is the client's fault, any other the
 * server's.
 */
module UserHandler {
  import opened GoText
  import opened Wrappers
  import opened Model
  import opened Http
  import opened Responses
  import opened UserRepository

  const NoSuchUserMessage: GoString := "A user with that id doesn't exist"
  const LookupFailedMessage: GoString := "Internal server error, failed to get user with that id"
  const FetchedPrefix: GoString := "Successfully fetched user with the id: "

  /** The answer for a lookup's result: the error-text-to-status mapping. */
  function ReplyFor(id: GoString, user: User, err: Option<GoString>): (r: Reply)
    ensures r.cookies == []
    ensures err.None? ==> r.status == StatusOK && r.message == FetchedPrefix + id && r.payload == FullUser(user)
    ensures err.Some? && Contains(err.value, NotFound) ==> r == Reply([], StatusBadRequest, NoSuchUserMessage, NullPayload)
    ensures err.Some? && !Contains(err.value, NotFound) ==> r == Reply([], StatusInternalServerError, LookupFailedMessage, NullPayload)
  {
    match err
    case Some(e) =>
      if Contains(e, NotFound) then Reply([], StatusBadRequest, NoSuchUserMessage, NullPayload)
      else Reply([], StatusInternalServerError, LookupFailedMessage, NullPayload)
    case None => Reply([], StatusOK, FetchedPrefix + id, FullUser(user))
  }

  /** `User.GetUserByID`; the store is only read. */
  method GetUserByID(store: UserStore, id: GoString, parse: UuidInput, faults: Faults, encode: Encoder)
    returns (reply: Reply, writes: seq<Write>)
    ensures reply == ReplyFor(id, ByIdResult(store.rows, id, parse, faults).0, ByIdResult(store.rows, id, parse, faults).1)
    ensures writes == ReplyWrites(reply, encode)
  {
    var user, err := store.GetUserByID(id, parse, faults);
    reply := ReplyFor(id, user, err);
    writes := ReplyWrites(reply, encode);
  }

  /**
   * Without driver faults the answer is 200 with the stored row, password
   * hash included, exactly when the id spells a UUID some row holds; 400 when
   * it spells a UUID no row holds; and, for text that is not a UUID, the
   * driver's syntax error decides between 400 and 500.
   */
  lemma StatusWithoutFaults(rows: seq<User>, id: GoString, parse: UuidInput)
    ensures var res := ByIdResult(rows, id, parse, NoFaults);
      var r := ReplyFor(id, res.0, res.1);
      (r.status == StatusOK <==> parse(id).Some? && exists i :: 0 <= i < |rows| && rows[i].id == parse(id).value)
      && (r.status == StatusOK ==> r.payload.FullUser? && r.payload.user in rows && r.payload.user.id == parse(id).value)
      && (parse(id).Some? && r.status != StatusOK ==> r == Reply([], StatusBadRequest, NoSuchUserMessage, NullPayload))
      && (parse(id).None? ==>
            (r.status == StatusBadRequest <==> Contains(QueryFailedPrefix + InvalidUuidError(id), NotFound))
            && (r.status != StatusBadRequest ==> r == Reply([], StatusInternalServerError, LookupFailedMessage, NullPayload)))
  {
    NotFoundErrorsSayNotFound(id, "");
  }

  /** Two spellings of the same UUID, such as upper- and lower-case digits, get the same answer. */
  lemma SpellingDoesNotMatter(rows: seq<User>, id1: GoString, id2: GoString, parse: UuidInput, faults: Faults)
    requires parse(id1).Some? && parse(id1) == parse(id2)
    ensures var r1 := ByIdResult(rows, id1, parse, faults);
      var r2 := ByIdResult(rows, id2, parse, faults);
      r1.0 == r2.0 && ReplyFor(id1, r1.0, r1.1).status == ReplyFor(id2, r2.0, r2.1).status
  {
    assert IdKey(id1, parse) == IdKey(id2, parse);
    NotFoundErrorsSayNotFound(id1, "");
    NotFoundErrorsSayNotFound(id2, "");
  }

  /** Any driver error whose text mentions "not found" is also answered as a missing user. */
  lemma DriverErrorMentioningNotFound(rows: seq<User>, id: GoString, parse: UuidInput, e: GoString)
    requires Contains(e, NotFound)
    ensures var f := NoFaults.(lookupQuery := Some(e));
      var res := ByIdResult(rows, id, parse, f);
      ReplyFor(id, res.0, res.1) == Reply([], StatusBadRequest, NoSuchUserMessage, NullPayload)
  {
    var prefix := QueryFailedPrefix;
    var i :| 0 <= i <= |e| && OccursAt(e, NotFound, i);
    assert OccursAt(prefix + e, NotFound, |prefix| + i);
  }
}
