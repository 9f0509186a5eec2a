/** The session middleware of `server/index.ts`: it reads the session cookie,
    validates it with lucia, renews or clears the cookie and stores the
    session and user in `res.locals` before passing the request on. */
module SessionMiddleware {
  import opened Wrappers
  import opened Http

  /** What `lucia.validateSession(id)` answers. */
  datatype Validation = Validation(session: Option<Session>, user: Option<SessionUser>)

  /** lucia's own promise: a session comes with its user, and no session with
      no user. */
  predicate Consistent(v: Validation)
  {
    v.session.Some? <==> v.user.Some?
  }

  /** `lucia.readSessionCookie(..)` found a (truthy) session id. */
  predicate HasId(sessionId: Option<string>)
  {
    sessionId.Some? && sessionId.value != ""
  }

  /** The headers appended and the `res.locals` the middleware leaves. */
  datatype Outcome = Outcome(cookies: seq<Cookie>, session: Option<Session>, user: Option<SessionUser>)

  /** The middleware's decision for a cookie's session id, given the session
      store's answer `validate`. */
  function Decide(sessionId: Option<string>, validate: string -> Validation): (r: Outcome)
    ensures |r.cookies| <= 1
    ensures !HasId(sessionId) ==> r == Outcome([], None, None)
    ensures HasId(sessionId) ==>
      r.session == validate(sessionId.value).session && r.user == validate(sessionId.value).user
    ensures r.cookies == [BlankSessionCookie] <==>
      HasId(sessionId) && validate(sessionId.value).session.None?
    ensures (|r.cookies| == 1 && r.cookies[0].SessionCookie?) <==>
      HasId(sessionId) && validate(sessionId.value).session.Some? && validate(sessionId.value).session.value.isFresh
    ensures |r.cookies| == 1 && r.cookies[0].SessionCookie? ==>
      r.cookies[0].sessionId == validate(sessionId.value).session.value.id
  {
    if !HasId(sessionId) then Outcome([], None, None)
    else
      var v := validate(sessionId.value);
      var cookies :=
        if v.session.None? then [BlankSessionCookie]
        else if v.session.value.isFresh then [SessionCookie(v.session.value.id)]
        else [];
      Outcome(cookies, v.session, v.user)
  }

  /** An invalid session clears the cookie and leaves both locals null. */
  lemma InvalidSessionCleared(sessionId: Option<string>, validate: string -> Validation)
    requires HasId(sessionId) && validate(sessionId.value).session.None?
    requires Consistent(validate(sessionId.value))
    ensures Decide(sessionId, validate) == Outcome([BlankSessionCookie], None, None)
  {
  }

  /** A valid session that was not renewed adds no `Set-Cookie` header. */
  lemma ValidSessionKept(sessionId: Option<string>, validate: string -> Validation)
    requires HasId(sessionId)
    requires validate(sessionId.value).session.Some? && !validate(sessionId.value).session.value.isFresh
    ensures Decide(sessionId, validate).cookies == []
    ensures Decide(sessionId, validate).session == validate(sessionId.value).session
  {
  }

  /** The middleware itself: it appends the decided cookies, sets
      `res.locals` and calls `next` exactly once without writing a response. */
  method Run(res: Exchange, sessionId: Option<string>, validate: string -> Validation)
    modifies res
    ensures res.cookies == old(res.cookies) + Decide(sessionId, validate).cookies
    ensures res.session == Decide(sessionId, validate).session
    ensures res.user == Decide(sessionId, validate).user
    ensures res.nextCalls == old(res.nextCalls) + 1
    ensures res.responses == old(res.responses)
  {
    if !HasId(sessionId) {
      res.user := None;
      res.session := None;
      res.Next();
      return;
    }
    var v := validate(sessionId.value);
    if v.session.Some? && v.session.value.isFresh {
      res.AppendCookie(SessionCookie(v.session.value.id));
    }
    if v.session.None? {
      res.AppendCookie(BlankSessionCookie);
    }
    res.session := v.session;
    res.user := v.user;
    res.Next();
  }
}
