/**
 * The part of net/http's `ResponseWriter` the handlers rely on. A handler is
 * modelled by the sequence of calls it makes on the writer; `Deliver` says
 * what the client then receives: header and cookie changes after the status
 * line has been written are lost, a second `WriteHeader` is ignored, a body
 * write without a status sends 200, and a panic sends no response at all.
 */
module Http {
  import opened GoText
  import opened Wrappers
  import opened Cookies

  datatype Write =
    | SetHeader(key: GoString, value: GoString)   // w.Header().Set
    | SetCookie(cookie: Cookie)                   // http.SetCookie
    | WriteHeader(code: int)                      // w.WriteHeader
    | WriteBody(data: GoString)                   // w.Write
    | Redirect(url: GoString, code: int)          // http.Redirect
    | Panic                                       // a nil dereference in the handler

  /** What the client receives. */
  datatype Response = Response(status: int, headers: map<GoString, GoString>, cookies: seq<Cookie>, body: GoString)

  /** The writer's state: whether the status line is out, and the response so far. */
  datatype Wire = Wire(sent: bool, response: Response)

  const Unsent := Wire(false, Response(200, map[], [], ""))

  const StatusOK := 200
  const StatusTemporaryRedirect := 307
  const StatusBadRequest := 400
  const StatusUnauthorized := 401
  const StatusConflict := 409
  const StatusInternalServerError := 500

  /** The effect of one call; `None` once the handler has panicked. */
  function Apply(w: Wire, x: Write): Option<Wire>
  {
    var r := w.response;
    match x
    case SetHeader(k, v) => Some(if w.sent then w else Wire(false, r.(headers := r.headers[k := v])))
    case SetCookie(c) => Some(if w.sent then w else Wire(false, r.(cookies := r.cookies + [c])))
    case WriteHeader(code) => Some(if w.sent then w else Wire(true, r.(status := code)))
    case WriteBody(d) => Some(Wire(true, r.(body := r.body + d)))
    case Redirect(url, code) => Some(if w.sent then w else Wire(true, r.(status := code, headers := r.headers["Location" := url])))
    case Panic => None
  }

  function Run(w: Wire, ws: seq<Write>): Option<Wire>
    decreases |ws|
  {
    if |ws| == 0 then Some(w)
    else match Apply(w, ws[0])
      case None => None
      case Some(w') => Run(w', ws[1..])
  }

  /** The response a sequence of calls produces, from a fresh writer. */
  function Deliver(ws: seq<Write>): Option<Response>
  {
    match Run(Unsent, ws)
    case None => None
    case Some(w) => Some(w.response)
  }

  /** Running two call sequences one after the other. */
  lemma {:induction false} RunAppend(w: Wire, a: seq<Write>, b: seq<Write>)
    ensures Run(w, a + b) == (match Run(w, a) case None => None case Some(w') => Run(w', b))
    decreases |a|
  {
    if |a| == 0 {
      assert a + b == b;
    } else {
      assert (a + b)[0] == a[0];
      assert (a + b)[1..] == a[1..] + b;
      match Apply(w, a[0])
      case None =>
      case Some(w') => RunAppend(w', a[1..], b);
    }
  }

  /**
   * Once the status line is out, nothing later changes the status, the headers
   * or the cookies the client sees; only body text can follow.
   */
  lemma {:induction false} SentIsFinal(w: Wire, ws: seq<Write>)
    requires w.sent
    ensures Run(w, ws).Some? ==>
      var r := Run(w, ws).value.response;
      r.status == w.response.status && r.headers == w.response.headers && r.cookies == w.response.cookies
    decreases |ws|
  {
    if |ws| > 0 {
      match Apply(w, ws[0])
      case None =>
      case Some(w') => SentIsFinal(w', ws[1..]);
    }
  }

  /** A call sequence that never panics gets a response. */
  lemma {:induction false} NoPanicDelivers(w: Wire, ws: seq<Write>)
    requires forall i :: 0 <= i < |ws| ==> !ws[i].Panic?
    ensures Run(w, ws).Some?
    decreases |ws|
  {
    if |ws| > 0 {
      NoPanicDelivers(Apply(w, ws[0]).value, ws[1..]);
    }
  }
}
