/** The `isAuthenticated` guard of `server/middleware/is-authenticated.ts`. */
module IsAuthenticated {
  import opened Wrappers
  import opened Http

  /** The rejection sent when no session is attached. */
  const Unauthorized := Response(401, Message("Unauthorized"))

  /** The guard's decision: `None` passes the request on, `Some(r)` answers
      it with `r`. */
  function Decide(session: Option<Session>): (r: Option<Response>)
    ensures r.None? <==> session.Some?
    ensures r.Some? ==> r.value.status == 401 && r.value.body == Json(map["message" := "Unauthorized"])
  {
    if session.Some? then None else Some(Unauthorized)
  }

  /** Either `next` is called once and nothing is written, or the 401 is
      written and `next` is not called; never both. */
  method Guard(res: Exchange)
    modifies res
    ensures Decide(res.session).None? ==>
      res.nextCalls == old(res.nextCalls) + 1 && res.responses == old(res.responses)
    ensures Decide(res.session).Some? ==>
      res.nextCalls == old(res.nextCalls) && res.responses == old(res.responses) + [Decide(res.session).value]
    ensures res.session == old(res.session) && res.user == old(res.user) && res.cookies == old(res.cookies)
  {
    if res.session.Some? {
      res.Next();
      return;
    }
    res.Send(Unauthorized);
  }
}
