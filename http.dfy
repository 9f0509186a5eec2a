/** The part of Express's request/response pair that the server's middleware
    and routes touch: `res.locals.session`, `res.locals.user`, the appended
    `Set-Cookie` headers, the responses written and the calls to `next`. */
module Http {
  import opened Wrappers

  /** A response body: `res.send(text)` or `res.json(object)` with string
      fields (fields that are `undefined` are dropped by `JSON.stringify`). */
  datatype Body = Text(text: string) | Json(fields: map<string, string>)

  /** `{ message: m }`. */
  function Message(m: string): Body
  {
    Json(map["message" := m])
  }

  datatype Response = Response(status: int, body: Body)

  /** A serialized `Set-Cookie` header made by lucia: the cookie naming a
      session, or the blank cookie that clears it. */
  datatype Cookie = SessionCookie(sessionId: string) | BlankSessionCookie

  /** A lucia session; `isFresh` (lucia's `fresh`) marks one whose expiry was just extended. */
  datatype Session = Session(id: string, userId: string, isFresh: bool)

  /** The user lucia attaches to a valid session. */
  datatype SessionUser = SessionUser(id: string)

  class Exchange {
    var session: Option<Session>
    var user: Option<SessionUser>
    var cookies: seq<Cookie>
    var responses: seq<Response>
    var nextCalls: nat

    /** A request as it arrives: nothing in `res.locals`, nothing written. */
    constructor ()
      ensures session == None && user == None
      ensures cookies == [] && responses == [] && nextCalls == 0
    {
      session := None;
      user := None;
      cookies := [];
      responses := [];
      nextCalls := 0;
    }

    /** `res.status(r.status).send(..)` or `.json(..)`. */
    method Send(r: Response)
      modifies this
      ensures responses == old(responses) + [r]
      ensures session == old(session) && user == old(user)
      ensures cookies == old(cookies) && nextCalls == old(nextCalls)
    {
      responses := responses + [r];
    }

    /** `res.appendHeader("Set-Cookie", ..)`. */
    method AppendCookie(c: Cookie)
      modifies this
      ensures cookies == old(cookies) + [c]
      ensures session == old(session) && user == old(user)
      ensures responses == old(responses) && nextCalls == old(nextCalls)
    {
      cookies := cookies + [c];
    }

    /** `next()`: hands the request to the next handler. */
    method Next()
      modifies this
      ensures nextCalls == old(nextCalls) + 1
      ensures session == old(session) && user == old(user)
      ensures cookies == old(cookies) && responses == old(responses)
    {
      nextCalls := nextCalls + 1;
    }
  }
}
