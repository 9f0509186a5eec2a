/** The `/users` router of `server/routes/userRoutes.ts`: `POST /signup`,
    `POST /login` and `GET /me`. Each handler is specified by a pure outcome
    function (the response it writes and what it adds to the database) and
    implemented as a method that takes the same early returns as the route. */
module UserRoutes {
  import opened Wrappers
  import opened Http
  import opened UserModel
  import JsString
  import IsAuthenticated

  const MinPasswordLength := 6
  const DefaultProfilePicture := "https://picsum.photos/200/300"

  /** A field of the parsed JSON body: absent, a string, or any other JSON
      value, of which only its truthiness matters to the checks. */
  datatype JsonValue = Missing | Str(s: string) | Other(truthy: bool)

  predicate Truthy(v: JsonValue)
  {
    match v
    case Missing => false
    case Str(s) => s != ""
    case Other(t) => t
  }

  /** The string `UserModel.create` stores for the `username` field; any value
      that is not a string is stored as the empty string, which the schema's
      `required` rule refuses. */
  function StoredString(v: JsonValue): string
  {
    if v.Str? then v.s else ""
  }

  /** The collaborators the routes call but that are not part of this model:
      the email validator, Argon2id hashing and verification. */
  datatype Services = Services(
    isValidEmail: string -> bool,
    hash: string -> string,
    verify: (string, string) -> bool)

  /** `!email || typeof email !== "string" || !isValidEmail(email)` fails. */
  predicate EmailOk(v: JsonValue, svc: Services)
  {
    Truthy(v) && v.Str? && svc.isValidEmail(v.s)
  }

  /** `!password || typeof password !== "string" || password.length < 6`
      fails; the length is JavaScript's, in UTF-16 code units. */
  predicate PasswordOk(v: JsonValue)
  {
    Truthy(v) && v.Str? && JsString.Length(v.s) >= MinPasswordLength
  }

  /** A password is accepted exactly when it is a string of at least six
      UTF-16 code units. */
  lemma PasswordRule(v: JsonValue)
    ensures PasswordOk(v) <==> v.Str? && JsString.Length(v.s) >= 6
  {
  }

  /** Five characters are refused and six accepted. */
  lemma PasswordBoundary()
    ensures !PasswordOk(Str("abcde"))
    ensures PasswordOk(Str("abcdef"))
  {
    JsString.LengthBmp("abcde");
    JsString.LengthBmp("abcdef");
  }

  // ---------------------------------------------------------------- signup

  datatype SignupBody = SignupBody(email: JsonValue, password: JsonValue, username: JsonValue)

  /** `req.body ?? { email: "", password: "", username: "" }`. */
  function SignupFields(body: Option<SignupBody>): SignupBody
  {
    if body.Some? then body.value else SignupBody(Str(""), Str(""), Str(""))
  }

  /** `UserModel.exists({ email })`. A string is looked up; for any other
      value the filter is handed to MongoDB as it stands, and whether it
      matches is the input `nonStringMatch`. */
  predicate EmailExists(users: seq<User>, email: JsonValue, nonStringMatch: bool)
  {
    if email.Str? then Exists(users, ByEmail(email.s)) else nonStringMatch
  }

  datatype SignupResult = SignupResult(response: Response, created: Option<User>)

  /** The document signup builds: a fresh `_id`, the hashed password and the
      default profile picture. */
  function SignupUser(b: SignupBody, svc: Services, newId: string): User
    requires b.email.Str? && b.password.Str?
  {
    NewUser(newId, b.email.s, svc.hash(b.password.s), StoredString(b.username), DefaultProfilePicture)
  }

  /** What `POST /signup` answers and creates. `newId` is `generateId(15)`,
      `createFault` a failure of the database during `create`. */
  function SignupOutcome(users: seq<User>, body: Option<SignupBody>, svc: Services,
                         newId: string, nonStringMatch: bool, createFault: bool): (r: SignupResult)
    ensures r.response.status in {200, 400, 500}
    ensures r.created.Some? <==> r.response.status == 200
    ensures r.created.Some? ==>
              && !EmailExists(users, SignupFields(body).email, nonStringMatch)
              && Accepts(users, r.created.value) && r.created.value.id == newId
  {
    var b := SignupFields(body);
    if EmailExists(users, b.email, nonStringMatch) then
      SignupResult(Response(400, Text("Email already exists")), None)
    else if !EmailOk(b.email, svc) then
      SignupResult(Response(400, Text("Invalid email")), None)
    else if !PasswordOk(b.password) then
      SignupResult(Response(400, Text("Invalid password")), None)
    else
      var u := SignupUser(b, svc, newId);
      if !createFault && Accepts(users, u) then
        SignupResult(Response(200, Message("User created!")), Some(u))
      else
        SignupResult(Response(500, Text("Server error")), None)
  }

  /** An existing email is refused before the email's form or the password
      is looked at. */
  lemma SignupExistingEmail(users: seq<User>, body: Option<SignupBody>, svc: Services,
                            newId: string, nonStringMatch: bool, createFault: bool)
    requires EmailExists(users, SignupFields(body).email, nonStringMatch)
    ensures SignupOutcome(users, body, svc, newId, nonStringMatch, createFault)
      == SignupResult(Response(400, Text("Email already exists")), None)
  {
  }

  /** A new email that is missing, not a string or ill-formed is refused with
      "Invalid email", whatever the password. */
  lemma SignupInvalidEmail(users: seq<User>, body: Option<SignupBody>, svc: Services,
                           newId: string, nonStringMatch: bool, createFault: bool)
    requires !EmailExists(users, SignupFields(body).email, nonStringMatch)
    requires !EmailOk(SignupFields(body).email, svc)
    ensures SignupOutcome(users, body, svc, newId, nonStringMatch, createFault)
      == SignupResult(Response(400, Text("Invalid email")), None)
  {
  }

  /** A user is created exactly when every check passes and the database
      accepts the document, and then the answer is 200 "User created!";
      otherwise nothing is created. */
  lemma SignupCreates(users: seq<User>, body: Option<SignupBody>, svc: Services,
                      newId: string, nonStringMatch: bool, createFault: bool)
    ensures var r := SignupOutcome(users, body, svc, newId, nonStringMatch, createFault);
      var b := SignupFields(body);
      && (r.created.Some? <==>
            !EmailExists(users, b.email, nonStringMatch) && EmailOk(b.email, svc) && PasswordOk(b.password)
            && !createFault && Accepts(users, SignupUser(b, svc, newId)))
      && (r.created.Some? <==> r.response.status == 200)
      && (r.created.Some? ==> r.response.body == Json(map["message" := "User created!"]))
      && (r.response.status == 500 <==> r.response == Response(500, Text("Server error")))
  {
  }

  /** The created document holds the submitted email, the hash of the
      password (never the password itself unless the hash is the identity),
      the new id, the default picture and biography, and is not verified. */
  lemma SignupCreatedUser(users: seq<User>, body: Option<SignupBody>, svc: Services,
                          newId: string, nonStringMatch: bool, createFault: bool)
    requires SignupOutcome(users, body, svc, newId, nonStringMatch, createFault).created.Some?
    ensures var u := SignupOutcome(users, body, svc, newId, nonStringMatch, createFault).created.value;
      var b := SignupFields(body);
      && b.email.Str? && b.password.Str?
      && u.id == newId && u.email == b.email.s && svc.isValidEmail(u.email)
      && u.password == svc.hash(b.password.s)
      && u.username == StoredString(b.username)
      && u.profilePicture == DefaultProfilePicture && u.biography == DefaultBiography && !u.verified
      && !Exists(users, ByEmail(u.email))
  {
  }

  /** The username is never checked by the route: two requests that differ
      only in their username get the same refusal from every check before
      the database is reached. */
  lemma SignupUsernameUnchecked(users: seq<User>, e: JsonValue, p: JsonValue, n1: JsonValue, n2: JsonValue,
                                svc: Services, newId: string, nonStringMatch: bool, createFault: bool)
    requires SignupOutcome(users, Some(SignupBody(e, p, n1)), svc, newId, nonStringMatch, createFault).response.status == 400
    ensures SignupOutcome(users, Some(SignupBody(e, p, n2)), svc, newId, nonStringMatch, createFault)
         == SignupOutcome(users, Some(SignupBody(e, p, n1)), svc, newId, nonStringMatch, createFault)
  {
  }

  /** Signup keeps ids, usernames and emails distinct. */
  lemma SignupPreservesValid(users: seq<User>, body: Option<SignupBody>, svc: Services,
                             newId: string, nonStringMatch: bool, createFault: bool)
    requires Valid(users)
    ensures Valid(users + AsSeq(SignupOutcome(users, body, svc, newId, nonStringMatch, createFault).created))
  {
    var r := SignupOutcome(users, body, svc, newId, nonStringMatch, createFault);
    if r.created.Some? {
      AppendValid(users, r.created.value);
    } else {
      assert users + [] == users;
    }
  }

  function AsSeq<T>(o: Option<T>): seq<T>
  {
    if o.Some? then [o.value] else []
  }

  // ----------------------------------------------------------------- login

  datatype LoginBody = LoginBody(email: JsonValue, password: JsonValue)

  /** `req.body ?? { email: "", password: "" }`. */
  function LoginFields(body: Option<LoginBody>): LoginBody
  {
    if body.Some? then body.value else LoginBody(Str(""), Str(""))
  }

  /** Where, if anywhere, the database fails inside the route's `try`. */
  datatype LoginFault = Healthy | LookupFails | SessionCreateFails

  datatype LoginResult = LoginResult(response: Response, session: Option<Session>)

  /** What `POST /login` answers and which session it creates; `attached` is
      `res.locals.session` and `newSessionId` the id lucia generates. */
  function LoginOutcome(users: seq<User>, attached: Option<Session>, body: Option<LoginBody>,
                        svc: Services, newSessionId: string, fault: LoginFault): (r: LoginResult)
    ensures r.response.status in {200, 400, 500}
    ensures r.session.Some? <==> r.response.status == 200
    ensures r.session.Some? ==>
              && attached.None? && fault.Healthy?
              && r.session.value.id == newSessionId && r.session.value.isFresh
  {
    var b := LoginFields(body);
    if attached.Some? then
      LoginResult(Response(400, Message("Already Logged in!")), None)
    else if !EmailOk(b.email, svc) then
      LoginResult(Response(400, Text("Invalid email")), None)
    else if !PasswordOk(b.password) then
      LoginResult(Response(400, Text("Invalid password")), None)
    else if fault == LookupFails then
      LoginResult(Response(500, Text("Internal Server error")), None)
    else
      match FindOne(users, ByEmail(b.email.s))
      case None => LoginResult(Response(400, Text("User does not exist")), None)
      case Some(u) =>
        if !svc.verify(u.password, b.password.s) then
          LoginResult(Response(400, Text("Invalid email or password")), None)
        else if fault == SessionCreateFails then
          LoginResult(Response(500, Text("Internal Server error")), None)
        else
          // lucia marks a newly created session fresh
          LoginResult(Response(200, Message("Login successful!")), Some(Session(newSessionId, u.id, true)))
  }

  /** A request that already carries a session is refused before its body is
      read. */
  lemma LoginAlreadyLoggedIn(users: seq<User>, attached: Option<Session>, body: Option<LoginBody>,
                             svc: Services, newSessionId: string, fault: LoginFault)
    requires attached.Some?
    ensures LoginOutcome(users, attached, body, svc, newSessionId, fault)
      == LoginResult(Response(400, Json(map["message" := "Already Logged in!"])), None)
  {
  }

  /** The refusals come in the route's order: invalid email, then invalid
      password, then an unknown user, then a wrong password. */
  lemma LoginOrder(users: seq<User>, body: Option<LoginBody>, svc: Services, newSessionId: string, fault: LoginFault)
    ensures var r := LoginOutcome(users, None, body, svc, newSessionId, fault);
      var b := LoginFields(body);
      && (!EmailOk(b.email, svc) ==> r.response == Response(400, Text("Invalid email")))
      && (EmailOk(b.email, svc) && !PasswordOk(b.password) ==> r.response == Response(400, Text("Invalid password")))
      && (EmailOk(b.email, svc) && PasswordOk(b.password) && fault != LookupFails ==>
            && (!Exists(users, ByEmail(b.email.s)) ==> r.response == Response(400, Text("User does not exist")))
            && (Exists(users, ByEmail(b.email.s)) &&
                !svc.verify(FindOne(users, ByEmail(b.email.s)).value.password, b.password.s) ==>
                  r.response == Response(400, Text("Invalid email or password"))))
  {
  }

  /** A session (and with it a session cookie) is created exactly on the 200
      answer, for a stored user with the submitted email whose stored hash
      verifies the submitted password. */
  lemma LoginSucceeds(users: seq<User>, attached: Option<Session>, body: Option<LoginBody>,
                      svc: Services, newSessionId: string, fault: LoginFault)
    ensures var r := LoginOutcome(users, attached, body, svc, newSessionId, fault);
      var b := LoginFields(body);
      && (r.session.Some? <==> r.response.status == 200)
      && (r.session.Some? ==>
            && attached.None? && fault == Healthy && b.email.Str? && b.password.Str?
            && PasswordOk(b.password) && svc.isValidEmail(b.email.s)
            && r.session.value.id == newSessionId
            && exists u :: u in users && u.email == b.email.s && u.id == r.session.value.userId
                        && svc.verify(u.password, b.password.s))
  {
    var r := LoginOutcome(users, attached, body, svc, newSessionId, fault);
    var b := LoginFields(body);
    if r.session.Some? {
      var u := FindOne(users, ByEmail(b.email.s)).value;
      assert u in users && u.email == b.email.s && u.id == r.session.value.userId;
    }
  }

  /** In a valid collection, the user who logs in is the one registered with
      that email. */
  lemma LoginFindsOwner(users: seq<User>, u: User, password: string, svc: Services, newSessionId: string)
    requires Valid(users) && u in users
    requires svc.isValidEmail(u.email) && PasswordOk(Str(password)) && svc.verify(u.password, password)
    ensures LoginOutcome(users, None, Some(LoginBody(Str(u.email), Str(password))), svc, newSessionId, Healthy)
      == LoginResult(Response(200, Message("Login successful!")), Some(Session(newSessionId, u.id, true)))
  {
    var i :| 0 <= i < |users| && users[i] == u;
    assert Required(users[i]);
    FindOneUnique(users, ByEmail(u.email), u);
  }

  // -------------------------------------------------------------------- me

  /** The object `GET /me` sends: the user's fields under the route's names,
      or nothing when no user has the session's id (`user?.x` is
      `undefined` and dropped from the JSON). */
  function Profile(user: Option<User>): (r: map<string, string>)
    ensures user.None? ==> r == map[]
    ensures user.Some? ==>
              && r.Keys == {"name", "email", "profilePicture", "biography", "id"}
              && r["name"] == user.value.username && r["id"] == user.value.id
  {
    if user.None? then map[]
    else
      var u := user.value;
      map["name" := u.username, "email" := u.email, "profilePicture" := u.profilePicture,
          "biography" := u.biography, "id" := u.id]
  }

  /** What `GET /me` answers, behind the `isAuthenticated` guard;
      `lookupFault` is a database failure in `findOne`. */
  function MeOutcome(users: seq<User>, session: Option<Session>, lookupFault: bool): (r: Response)
    ensures r.status in {200, 401, 500}
    ensures r.status == 200 <==> session.Some? && !lookupFault
  {
    if session.None? then IsAuthenticated.Unauthorized
    else if lookupFault then Response(500, Message("Something went wrong!"))
    else Response(200, Json(Profile(FindOne(users, ById(session.value.userId)))))
  }

  /** Without a session the answer is the guard's 401; with one it is never
      401, and a found user's profile maps `name` to the username and `id` to
      the `_id`. */
  lemma MeProfile(users: seq<User>, session: Option<Session>, lookupFault: bool)
    ensures var r := MeOutcome(users, session, lookupFault);
      && (r.status == 401 <==> session.None?)
      && (session.None? ==> r.body == Json(map["message" := "Unauthorized"]))
      && (session.Some? && !lookupFault && Exists(users, ById(session.value.userId)) ==>
            var u := FindOne(users, ById(session.value.userId)).value;
            && r.status == 200 && r.body.Json?
            && r.body.fields.Keys == {"name", "email", "profilePicture", "biography", "id"}
            && r.body.fields["name"] == u.username && r.body.fields["id"] == u.id == session.value.userId
            && r.body.fields["email"] == u.email && r.body.fields["biography"] == u.biography
            && r.body.fields["profilePicture"] == u.profilePicture)
  {
  }

  // -------------------------------------------------------------- handlers

  /** The database behind the routes: the `users` collection and lucia's
      sessions. */
  class Database {
    var users: seq<User>
    var sessions: seq<Session>

    constructor ()
      ensures users == [] && sessions == []
    {
      users := [];
      sessions := [];
    }

    /** `UserModel.create(u)`; `fault` is a failure of the database itself. */
    method Create(u: User, fault: bool) returns (ok: bool)
      modifies this
      ensures ok <==> !fault && Accepts(old(users), u)
      ensures users == if ok then old(users) + [u] else old(users)
      ensures sessions == old(sessions)
    {
      ok := !fault && Accepts(users, u);
      if ok {
        users := users + [u];
      }
    }
  }

  /** `POST /signup`. */
  method Signup(db: Database, res: Exchange, body: Option<SignupBody>, svc: Services,
                newId: string, nonStringMatch: bool, createFault: bool)
    modifies db, res
    ensures var r := SignupOutcome(old(db.users), body, svc, newId, nonStringMatch, createFault);
      && res.responses == old(res.responses) + [r.response]
      && db.users == old(db.users) + AsSeq(r.created)
    ensures db.sessions == old(db.sessions)
    ensures res.session == old(res.session) && res.user == old(res.user)
    ensures res.cookies == old(res.cookies) && res.nextCalls == old(res.nextCalls)
  {
    var b := SignupFields(body);
    if EmailExists(db.users, b.email, nonStringMatch) {
      res.Send(Response(400, Text("Email already exists")));
      return;
    }
    if !EmailOk(b.email, svc) {
      res.Send(Response(400, Text("Invalid email")));
      return;
    }
    if !PasswordOk(b.password) {
      res.Send(Response(400, Text("Invalid password")));
      return;
    }
    var hashed := svc.hash(b.password.s);
    var u := NewUser(newId, b.email.s, hashed, StoredString(b.username), DefaultProfilePicture);
    var ok := db.Create(u, createFault);
    if ok {
      res.Send(Response(200, Message("User created!")));
    } else {
      res.Send(Response(500, Text("Server error")));
    }
  }

  /** `POST /login`: on success the new session is stored and its cookie
      appended before the 200 answer. */
  method Login(db: Database, res: Exchange, body: Option<LoginBody>, svc: Services,
               newSessionId: string, fault: LoginFault)
    modifies db, res
    ensures var r := LoginOutcome(old(db.users), old(res.session), body, svc, newSessionId, fault);
      && res.responses == old(res.responses) + [r.response]
      && db.sessions == old(db.sessions) + AsSeq(r.session)
      && res.cookies == old(res.cookies) + (if r.session.Some? then [SessionCookie(newSessionId)] else [])
    ensures db.users == old(db.users)
    ensures res.session == old(res.session) && res.user == old(res.user) && res.nextCalls == old(res.nextCalls)
  {
    if res.session.Some? {
      res.Send(Response(400, Message("Already Logged in!")));
      return;
    }
    var b := LoginFields(body);
    if !EmailOk(b.email, svc) {
      res.Send(Response(400, Text("Invalid email")));
      return;
    }
    if !PasswordOk(b.password) {
      res.Send(Response(400, Text("Invalid password")));
      return;
    }
    if fault == LookupFails {
      res.Send(Response(500, Text("Internal Server error")));
      return;
    }
    var user := FindOne(db.users, ByEmail(b.email.s));
    if user.None? {
      res.Send(Response(400, Text("User does not exist")));
      return;
    }
    if !svc.verify(user.value.password, b.password.s) {
      res.Send(Response(400, Text("Invalid email or password")));
      return;
    }
    if fault == SessionCreateFails {
      res.Send(Response(500, Text("Internal Server error")));
      return;
    }
    var session := Session(newSessionId, user.value.id, true);
    db.sessions := db.sessions + [session];
    res.AppendCookie(SessionCookie(session.id));
    res.Send(Response(200, Message("Login successful!")));
  }

  /** `GET /me`: the `isAuthenticated` guard, then the handler. */
  method Me(db: Database, res: Exchange, lookupFault: bool)
    modifies res
    ensures res.responses == old(res.responses) + [MeOutcome(db.users, old(res.session), lookupFault)]
    ensures res.session == old(res.session) && res.user == old(res.user) && res.cookies == old(res.cookies)
    ensures res.nextCalls == old(res.nextCalls) + (if old(res.session).Some? then 1 else 0)
  {
    var before := res.nextCalls;
    IsAuthenticated.Guard(res);
    if res.nextCalls > before && res.session.Some? {
      if lookupFault {
        res.Send(Response(500, Message("Something went wrong!")));
      } else {
        var user := FindOne(db.users, ById(res.session.value.userId));
        res.Send(Response(200, Json(Profile(user))));
      }
    }
  }
}
