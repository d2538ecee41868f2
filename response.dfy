/**
 * util/response.go: the JSON envelope every handler answers with, and what
 * `JsonResponse` does to the writer. `json.Marshal` is passed in as an
 * `Encoder`; its text format is not part of this model.
 */
module Responses {
  import opened GoText
  import opened Wrappers
  import opened Model
  import opened Cookies
  import opened Http

  /** `util.UserPayload`: a user without the password. */
  datatype UserPayload = UserPayload(id: Uuid, username: GoString, email: GoString)

  /** The payloads the handlers send: nil, a `UserPayload`, or a whole `model.User`. */
  datatype Payload = NullPayload | Summary(summary: UserPayload) | FullUser(user: User)

  /** `util.Response`. */
  datatype Envelope = Envelope(message: GoString, success: bool, payload: Payload)

  /** `json.Marshal` on an envelope: the JSON text, or the marshalling error. */
  type Encoder = Envelope -> Result<GoString, GoString>

  const ContentType: GoString := "Content-Type"
  const JsonContentType: GoString := "application/json"
  const PlainTextContentType: GoString := "text/plain; charset=utf-8"
  const ContentTypeOptions: GoString := "X-Content-Type-Options"
  const NoSniff: GoString := "nosniff"
  const EncodeFailedPrefix: GoString := "[FAIL]: failed to encode json response: "

  /** The payload for a user: its id, username and email, and nothing else. */
  function PayloadOf(u: User): (p: UserPayload)
    ensures p.id == u.id && p.username == u.username && p.email == u.email
  {
    UserPayload(u.id, u.username, u.email)
  }

  /** The envelope: message and payload as given, success exactly for statuses below 400. */
  function MakeEnvelope(msg: GoString, status: int, payload: Payload): (e: Envelope)
    ensures e.message == msg && e.payload == payload
    ensures e.success <==> status < 400
  {
    Envelope(msg, status < 400, payload)
  }

  /** `http.Error`: a plain-text body with a trailing newline. */
  function HttpError(text: GoString, code: int): seq<Write>
  {
    [SetHeader(ContentType, PlainTextContentType), SetHeader(ContentTypeOptions, NoSniff), WriteHeader(code), WriteBody(text + "\n")]
  }

  /** `JsonResponse`: the calls it makes on the writer. */
  function JsonResponse(encode: Encoder, msg: GoString, status: int, payload: Payload): (ws: seq<Write>)
    ensures |ws| > 0 && ws[0] == SetHeader(ContentType, JsonContentType)
    ensures forall i :: 0 <= i < |ws| ==> !ws[i].Panic? && !ws[i].SetCookie?
  {
    [SetHeader(ContentType, JsonContentType)] +
    match encode(MakeEnvelope(msg, status, payload))
    case Ok(json) => [WriteHeader(status), WriteBody(json)]
    case Err(e) => HttpError(EncodeFailedPrefix + e, StatusInternalServerError)
  }

  /** A handler's answer: cookies set first, then one `JsonResponse`. */
  datatype Reply = Reply(cookies: seq<Cookie>, status: int, message: GoString, payload: Payload)

  function SetCookies(cs: seq<Cookie>): (ws: seq<Write>)
    ensures |ws| == |cs| && forall i :: 0 <= i < |cs| ==> ws[i] == SetCookie(cs[i])
  {
    seq(|cs|, i requires 0 <= i < |cs| => SetCookie(cs[i]))
  }

  function ReplyWrites(r: Reply, encode: Encoder): seq<Write>
  {
    SetCookies(r.cookies) + JsonResponse(encode, r.message, r.status, r.payload)
  }

  /** What the client receives for a reply, as net/http delivers it. */
  function Received(r: Reply, encode: Encoder): Response
  {
    match encode(MakeEnvelope(r.message, r.status, r.payload))
    case Ok(json) => Response(r.status, map[ContentType := JsonContentType], r.cookies, json)
    case Err(e) =>
      Response(StatusInternalServerError, map[ContentType := PlainTextContentType, ContentTypeOptions := NoSniff],
               r.cookies, EncodeFailedPrefix + e + "\n")
  }

  lemma {:induction false} RunSetCookies(w: Wire, cs: seq<Cookie>)
    requires !w.sent
    ensures Run(w, SetCookies(cs)) == Some(Wire(false, w.response.(cookies := w.response.cookies + cs)))
    decreases |cs|
  {
    if |cs| == 0 {
      assert w.response.cookies + cs == w.response.cookies;
    } else {
      var w' := Wire(false, w.response.(cookies := w.response.cookies + [cs[0]]));
      assert SetCookies(cs)[1..] == SetCookies(cs[1..]);
      RunSetCookies(w', cs[1..]);
      assert w.response.cookies + [cs[0]] + cs[1..] == w.response.cookies + cs;
    }
  }

  /** A status line then a body, on a writer that has sent nothing yet. */
  lemma RunStatusThenBody(w: Wire, status: int, body: GoString)
    requires !w.sent
    ensures Run(w, [WriteHeader(status), WriteBody(body)])
      == Some(Wire(true, w.response.(status := status, body := w.response.body + body)))
  {
    var ws := [WriteHeader(status), WriteBody(body)];
    var sent := Wire(true, w.response.(status := status));
    var done := Wire(true, sent.response.(body := sent.response.body + body));
    assert ws[1..] == [WriteBody(body)] && ws[1..][1..] == [];
    assert Run(w, ws) == Run(sent, ws[1..]);
    assert Run(sent, ws[1..]) == Run(done, ws[1..][1..]);
  }

  /** `http.Error` on a writer that has sent nothing yet. */
  lemma RunHttpError(w: Wire, text: GoString, code: int)
    requires !w.sent
    ensures Run(w, HttpError(text, code)) == Some(Wire(true, w.response.(
      status := code,
      headers := w.response.headers[ContentType := PlainTextContentType][ContentTypeOptions := NoSniff],
      body := w.response.body + (text + "\n"))))
  {
    var ws := HttpError(text, code);
    var r := w.response;
    var plain := Wire(false, r.(headers := r.headers[ContentType := PlainTextContentType]));
    var nosniff := Wire(false, plain.response.(headers := plain.response.headers[ContentTypeOptions := NoSniff]));
    assert Run(w, ws) == Run(plain, ws[1..]);
    assert Run(plain, ws[1..]) == Run(nosniff, ws[2..]);
    assert ws[2..] == [WriteHeader(code), WriteBody(text + "\n")];
    RunStatusThenBody(nosniff, code, text + "\n");
  }

  /** `JsonResponse` on a writer holding only cookies: the client receives `Received`. */
  lemma RunJsonResponse(w: Wire, encode: Encoder, msg: GoString, status: int, payload: Payload)
    requires !w.sent && w.response.headers == map[] && w.response.body == ""
    ensures Run(w, JsonResponse(encode, msg, status, payload))
      == Some(Wire(true, Received(Reply(w.response.cookies, status, msg, payload), encode)))
  {
    var ws := JsonResponse(encode, msg, status, payload);
    var json := Wire(false, w.response.(headers := map[ContentType := JsonContentType]));
    assert w.response.headers[ContentType := JsonContentType] == map[ContentType := JsonContentType];
    assert Run(w, ws) == Run(json, ws[1..]);
    match encode(MakeEnvelope(msg, status, payload))
    case Ok(body) =>
      assert ws[1..] == [WriteHeader(status), WriteBody(body)];
      RunStatusThenBody(json, status, body);
      assert "" + body == body;
    case Err(e) =>
      var text := EncodeFailedPrefix + e;
      assert ws[1..] == HttpError(text, StatusInternalServerError);
      RunHttpError(json, text, StatusInternalServerError);
      assert map[ContentType := JsonContentType][ContentType := PlainTextContentType][ContentTypeOptions := NoSniff]
        == map[ContentType := PlainTextContentType, ContentTypeOptions := NoSniff];
      assert "" + (text + "\n") == text + "\n";
  }

  /**
   * A reply reaches the client with its cookies and, when the envelope
   * encodes, its own status and the JSON body under Content-Type
   * application/json; when it does not, as a 500 plain-text error, the
   * reply's status never being written.
   */
  lemma ReplyDelivered(r: Reply, encode: Encoder)
    ensures Deliver(ReplyWrites(r, encode)) == Some(Received(r, encode))
  {
    var cookiesSet := Wire(false, Response(200, map[], r.cookies, ""));
    RunSetCookies(Unsent, r.cookies);
    assert Unsent.response.cookies + r.cookies == r.cookies;
    RunAppend(Unsent, SetCookies(r.cookies), JsonResponse(encode, r.message, r.status, r.payload));
    RunJsonResponse(cookiesSet, encode, r.message, r.status, r.payload);
  }
}
