/** The Flask route handlers of backend/app.py as pure transitions
    `(database, caller, request) -> (response, database')`. SQL, connection
    handling, bcrypt and JWT are abstracted: the hash bcrypt produced, the
    password check, the token decoder and the date parser are parameters. */
module Routes {
  import opened Types
  import opened Store

  datatype Response = Response(status: int, message: string)

  /** What decoding a bearer token yields: the `user_id` claim, or one of the two failures. */
  datatype Decoded = UserId(id: nat) | Expired | Invalid

  /** The outcome of the token gate: the authenticated caller, or the 401 it answers with. */
  datatype Gate = Caller(id: nat) | Rejected(response: Response)

  const BearerPrefix: string := "Bearer "

  /** Removes a leading "Bearer " (seven characters) from the Authorization header. */
  function StripBearer(header: string): (token: string)
    ensures |token| <= |header|
    ensures token == header || header == BearerPrefix + token
    ensures |header| < |BearerPrefix| || header[..|BearerPrefix|] != BearerPrefix ==> token == header
  {
    if |header| >= |BearerPrefix| && header[..|BearerPrefix|] == BearerPrefix then
      assert header == header[..|BearerPrefix|] + header[|BearerPrefix|..];
      header[|BearerPrefix|..]
    else header
  }

  /** A token the client prefixed with "Bearer " reaches the decoder unchanged. */
  lemma StripBearerRoundTrip(token: string)
    ensures StripBearer(BearerPrefix + token) == token
  {
    assert (BearerPrefix + token)[..|BearerPrefix|] == BearerPrefix;
  }

  /** The `token_required` decorator: a missing or empty header is refused
      before the token is looked at; otherwise the stripped token is decoded. */
  function Authenticate(header: Option<string>, decode: string -> Decoded): (g: Gate)
    ensures !Truthy(header) ==> g == Rejected(Response(401, "Token is missing"))
    ensures g.Caller? <==> Truthy(header) && decode(StripBearer(header.value)).UserId?
    ensures g.Caller? ==> decode(StripBearer(header.value)) == UserId(g.id)
    ensures g.Rejected? ==> g.response.status == 401
  {
    if !Truthy(header) then Rejected(Response(401, "Token is missing"))
    else
      match decode(StripBearer(header.value))
      case UserId(id) => Caller(id)
      case Expired => Rejected(Response(401, "Token has expired"))
      case Invalid => Rejected(Response(401, "Token is invalid"))
  }

  // ---------------------------------------------------------------- users

  datatype RegisterBody = RegisterBody(
    name: Option<string>, email: Option<string>, password: Option<string>, role: Option<string>)

  predicate RegisterFieldsPresent(body: RegisterBody) {
    Truthy(body.name) && Truthy(body.email) && Truthy(body.password)
  }

  /** POST /api/register. `passwordHash` is what bcrypt produced for this call. */
  function RegisterUser(db: Db, body: RegisterBody, passwordHash: string): (r: (Response, Db))
    ensures !RegisterFieldsPresent(body) ==> r == (Response(400, "Name, email, and password are required"), db)
    ensures r.0.status == 409 <==> RegisterFieldsPresent(body) && EmailTaken(db.users, body.email.value)
    ensures r.0.status != 201 ==> r.1 == db
    ensures r.0.status == 201 <==> RegisterFieldsPresent(body) && !EmailTaken(db.users, body.email.value)
    ensures r.0.status == 201 ==>
      && r.1.users == db.users[db.nextUserId := Account(body.name.value, body.email.value, passwordHash, RoleOrParticipant(body.role))]
      && r.1.events == db.events && r.1.registrations == db.registrations
    ensures r.0.status in {400, 409, 201}
    ensures Valid(db) && r.0.status == 201 ==> |r.1.users| == |db.users| + 1
    ensures Valid(db) ==> Valid(r.1)
  {
    if !RegisterFieldsPresent(body) then
      (Response(400, "Name, email, and password are required"), db)
    else if EmailTaken(db.users, body.email.value) then
      (Response(409, "User already exists"), db)
    else
      var account := Account(body.name.value, body.email.value, passwordHash, RoleOrParticipant(body.role));
      var db' := db.(users := db.users[db.nextUserId := account], nextUserId := db.nextUserId + 1);
      assert Valid(db) ==> db.nextUserId !in db.users;
      (Response(201, "User registered successfully"), db')
  }

  datatype LoginBody = LoginBody(email: Option<string>, password: Option<string>)
  datatype LoginResult = LoggedIn(user: User) | LoginRejected(response: Response)

  /** POST /api/login, the decision only: `verify(password, hash)` stands for
      bcrypt's check; token signing is not modelled. E-mails are unique in
      every reachable database, which is what makes the lookup a function. */
  function Login(db: Db, body: LoginBody, verify: (string, string) -> bool): (r: LoginResult)
    requires UniqueEmails(db.users)
    ensures !(Truthy(body.email) && Truthy(body.password)) ==>
      r == LoginRejected(Response(400, "Email and password are required"))
    ensures r.LoggedIn? ==>
      && r.user.userId in db.users
      && var a := db.users[r.user.userId];
      && a.email == body.email.value
      && verify(body.password.value, a.passwordHash)
      && r.user == User(r.user.userId, a.name, a.email, a.role)
    ensures Truthy(body.email) && Truthy(body.password) ==>
      (r.LoggedIn? <==> exists id :: id in db.users && db.users[id].email == body.email.value
                                      && verify(body.password.value, db.users[id].passwordHash))
    ensures r.LoginRejected? ==> r.response.status in {400, 401}
  {
    if !(Truthy(body.email) && Truthy(body.password)) then
      LoginRejected(Response(400, "Email and password are required"))
    else if !EmailTaken(db.users, body.email.value) then
      LoginRejected(Response(401, "Invalid credentials"))
    else
      var id :| id in db.users && db.users[id].email == body.email.value;
      var a := db.users[id];
      if verify(body.password.value, a.passwordHash) then LoggedIn(User(id, a.name, a.email, a.role))
      else LoginRejected(Response(401, "Invalid credentials"))
  }

  // --------------------------------------------------------------- events

  datatype EventBody = EventBody(
    title: Option<string>, description: Option<string>, location: Option<string>, eventDate: Option<string>)

  /** `strftime('%Y-%m-%d %H:%M:%S')` keeps whole seconds: the stored
      instant is the parsed one rounded down to a multiple of 1000 ms. */
  function WholeSeconds(t: int): (s: int)
    ensures s <= t < s + 1000
    ensures s % 1000 == 0
  {
    t - t % 1000
  }

  /** POST /api/events. `parse` is dateutil's parser followed by the
      formatting that drops any UTC offset: the wall-clock time the string
      writes, in the string's own offset, counted as milliseconds as if it
      were UTC, or None when the parser raises. For the client's
      `toISOString` text, which is written in UTC, that is the picked instant. */
  function CreateEvent(db: Db, caller: nat, body: EventBody, parse: string -> Option<int>): (r: (Response, Db))
    ensures !(Truthy(body.title) && Truthy(body.eventDate)) ==>
      r == (Response(400, "Title and event date are required"), db)
    ensures Truthy(body.title) && Truthy(body.eventDate) && parse(body.eventDate.value).None? ==>
      r == (Response(400, "Invalid date format"), db)
    ensures r.0.status == 201 <==> Truthy(body.title) && Truthy(body.eventDate) && parse(body.eventDate.value).Some?
    ensures r.0.status != 201 ==> r.1 == db
    ensures r.0.status == 201 ==>
      && r.1.events == db.events[db.nextEventId := EventRecord(body.title.value, body.description, body.location,
                                                               WholeSeconds(parse(body.eventDate.value).value), caller)]
      && r.1.users == db.users && r.1.registrations == db.registrations
    ensures Valid(db) && r.0.status == 201 ==> |r.1.events| == |db.events| + 1
    ensures Valid(db) ==> Valid(r.1)
  {
    if !(Truthy(body.title) && Truthy(body.eventDate)) then
      (Response(400, "Title and event date are required"), db)
    else
      match parse(body.eventDate.value)
      case None => (Response(400, "Invalid date format"), db)
      case Some(t) =>
        var e := EventRecord(body.title.value, body.description, body.location, WholeSeconds(t), caller);
        assert Valid(db) ==> db.nextEventId !in db.events;
        (Response(201, "Event created successfully"), db.(events := db.events[db.nextEventId := e], nextEventId := db.nextEventId + 1))
  }

  /** The backend's 403 rule for deleting an event: only an admin or the creator may. */
  predicate MayDelete(db: Db, caller: nat, eventId: nat)
    requires caller in db.users && eventId in db.events
    ensures db.users[caller].role == AdminRole ==> MayDelete(db, caller, eventId)
    ensures db.events[eventId].createdBy == caller ==> MayDelete(db, caller, eventId)
    ensures MayDelete(db, caller, eventId) ==> db.users[caller].role == AdminRole || db.events[eventId].createdBy == caller
  {
    db.users[caller].role == AdminRole || db.events[eventId].createdBy == caller
  }

  /** DELETE /api/events/<id>. The handler deletes the event row only;
      whether the database cascades the delete to the event's
      registrations is not shown, so `cascade` makes it explicit. The
      caller's Users row is indexed unconditionally, so it must exist. */
  function DeleteEvent(db: Db, caller: nat, eventId: nat, cascade: bool): (r: (Response, Db))
    requires caller in db.users
    ensures eventId !in db.events ==> r == (Response(404, "Event not found"), db)
    ensures eventId in db.events && !MayDelete(db, caller, eventId) ==> r == (Response(403, "Unauthorized to delete this event"), db)
    ensures r.0.status == 200 <==> eventId in db.events && MayDelete(db, caller, eventId)
    ensures r.0.status == 200 ==>
      && r.1.events == db.events - {eventId}
      && r.1.users == db.users
      && r.1.registrations == (if cascade then DropEvent(db.registrations, eventId) else db.registrations)
    ensures r.0.status in {404, 403, 200}
    ensures Valid(db) ==> Valid(r.1)
  {
    if eventId !in db.events then (Response(404, "Event not found"), db)
    else if !MayDelete(db, caller, eventId) then (Response(403, "Unauthorized to delete this event"), db)
    else
      var regs := if cascade then DropEvent(db.registrations, eventId) else db.registrations;
      FilterKeepsNoDuplicates(db.registrations, Registration(caller, eventId), eventId);
      (Response(200, "Event deleted successfully"), db.(events := db.events - {eventId}, registrations := regs))
  }

  // ----------------------------------------------- early answers, as written

  /** The framework's answer when a handler raises: status 500 and its own
      error page, which carries no JSON message (the empty message here). */
  const Crashed: Response := Response(500, "")

  /** POST /api/register as written. The 400 for missing fields is returned
      before the local `connection` is bound, so the `finally` clause's
      read of it raises and the client gets the framework's 500 instead.
      Every other answer is the route's own. */
  function RegisterUserAsWritten(db: Db, body: RegisterBody, passwordHash: string): (r: (Response, Db))
    ensures r.0.status == 500 <==> RegisterUser(db, body, passwordHash).0.status == 400
    ensures r.0.status == 500 ==> r.0.message == ""
    ensures r.0.status != 500 ==> r == RegisterUser(db, body, passwordHash)
    ensures r.1 == RegisterUser(db, body, passwordHash).1
  {
    if !RegisterFieldsPresent(body) then (Crashed, db) else RegisterUser(db, body, passwordHash)
  }

  /** POST /api/login as written: its 400 meets the same unbound `connection`. */
  function LoginAsWritten(db: Db, body: LoginBody, verify: (string, string) -> bool): (r: LoginResult)
    requires UniqueEmails(db.users)
    ensures (r.LoginRejected? && r.response.status == 500)
        <==> (Login(db, body, verify).LoginRejected? && Login(db, body, verify).response.status == 400)
    ensures r.LoginRejected? && r.response.status == 500 ==> r.response.message == ""
    ensures !(r.LoginRejected? && r.response.status == 500) ==> r == Login(db, body, verify)
  {
    if !(Truthy(body.email) && Truthy(body.password)) then LoginRejected(Crashed) else Login(db, body, verify)
  }

  /** POST /api/events as written: both of its 400s (missing fields, a date
      the parser refuses) come before `connection` is bound. */
  function CreateEventAsWritten(db: Db, caller: nat, body: EventBody, parse: string -> Option<int>): (r: (Response, Db))
    ensures r.0.status == 500 <==> CreateEvent(db, caller, body, parse).0.status == 400
    ensures r.0.status == 500 ==> r.0.message == ""
    ensures r.0.status != 500 ==> r == CreateEvent(db, caller, body, parse)
    ensures r.1 == CreateEvent(db, caller, body, parse).1
  {
    if !(Truthy(body.title) && Truthy(body.eventDate)) || parse(body.eventDate.value).None? then (Crashed, db)
    else CreateEvent(db, caller, body, parse)
  }

  // -------------------------------------------------------- registrations

  /** POST /api/events/<id>/register. The event's date is never consulted. */
  function RegisterForEvent(db: Db, caller: nat, eventId: nat): (r: (Response, Db))
    ensures eventId !in db.events ==> r == (Response(404, "Event not found"), db)
    ensures eventId in db.events && Registration(caller, eventId) in db.registrations ==>
      r == (Response(409, "Already registered for this event"), db)
    ensures r.0.status == 201 <==> eventId in db.events && Registration(caller, eventId) !in db.registrations
    ensures r.0.status == 201 ==>
      && r.1 == db.(registrations := db.registrations + [Registration(caller, eventId)])
      && forall x :: x in r.1.registrations <==> x in db.registrations || x == Registration(caller, eventId)
    ensures r.0.status in {404, 409, 201}
    ensures Registration(caller, eventId) in r.1.registrations <==> r.0.status != 404 || Registration(caller, eventId) in db.registrations
    ensures Valid(db) ==> Valid(r.1)
  {
    if eventId !in db.events then (Response(404, "Event not found"), db)
    else if Registration(caller, eventId) in db.registrations then (Response(409, "Already registered for this event"), db)
    else
      AppendKeepsNoDuplicates(db.registrations, Registration(caller, eventId));
      (Response(201, "Successfully registered for event"), db.(registrations := db.registrations + [Registration(caller, eventId)]))
  }

  /** DELETE /api/events/<id>/unregister: deletes the caller's rows for the
      event and answers 404 when none was deleted. Whether the event exists
      is not checked. */
  function UnregisterFromEvent(db: Db, caller: nat, eventId: nat): (r: (Response, Db))
    ensures r.0.status == 200 <==> Registration(caller, eventId) in db.registrations
    ensures r.0.status != 200 ==> r == (Response(404, "Registration not found"), db)
    ensures r.0.status == 200 ==>
      && r.1 == db.(registrations := Without(db.registrations, Registration(caller, eventId)))
      && Registration(caller, eventId) !in r.1.registrations
      && forall x :: x in r.1.registrations <==> x in db.registrations && x != Registration(caller, eventId)
    ensures Valid(db) ==> Valid(r.1)
  {
    var pair := Registration(caller, eventId);
    var rows := Without(db.registrations, pair);
    WithoutShrinks(db.registrations, pair);
    FilterKeepsNoDuplicates(db.registrations, pair, eventId);
    if |rows| == |db.registrations| then
      (Response(404, "Registration not found"), db)
    else
      (Response(200, "Successfully unregistered from event"), db.(registrations := rows))
  }

  // ----------------------------------------------------------- dispatch

  /** The routes behind the token gate: the four that change state and
      GET /api/user/events, which reads the caller's listing. */
  datatype Request = Create(body: EventBody) | Delete(eventId: nat) | Join(eventId: nat) | Leave(eventId: nat) | Mine

  /** Every token that decodes names an existing user. */
  ghost predicate TokensNameUsers(db: Db, decode: string -> Decoded) {
    forall t :: decode(t).UserId? ==> decode(t).id in db.users
  }

  /** One authenticated request: the token gate runs first and, when it
      admits the request, the handler runs with the decoded caller id. The
      listing GET /api/user/events answers for an admitted caller is
      `Listings.GetUserEvents` of that caller; here it is the empty-message
      200 that carries it. */
  function Dispatch(db: Db, header: Option<string>, decode: string -> Decoded,
                    parse: string -> Option<int>, cascade: bool, m: Request): (r: (Response, Db))
    requires m.Delete? ==> TokensNameUsers(db, decode)
    ensures !Truthy(header) ==> r == (Response(401, "Token is missing"), db)
    ensures r.0.status == 401 <==> Authenticate(header, decode).Rejected?
    ensures r.0.status == 401 ==> r.1 == db
    ensures m.Mine? ==> r.1 == db && (r.0.status == 200 <==> Authenticate(header, decode).Caller?)
    ensures var a := Authenticate(header, decode); a.Rejected? ==> r == (a.response, db)
    ensures var a := Authenticate(header, decode); a.Caller? && m.Create? ==> r == CreateEvent(db, a.id, m.body, parse)
    ensures var a := Authenticate(header, decode); a.Caller? && m.Delete? ==> r == DeleteEvent(db, a.id, m.eventId, cascade)
    ensures var a := Authenticate(header, decode); a.Caller? && m.Join? ==> r == RegisterForEvent(db, a.id, m.eventId)
    ensures var a := Authenticate(header, decode); a.Caller? && m.Leave? ==> r == UnregisterFromEvent(db, a.id, m.eventId)
    ensures var a := Authenticate(header, decode); a.Caller? && m.Mine? ==> r == (Response(200, ""), db)
    ensures Valid(db) ==> Valid(r.1)
  {
    match Authenticate(header, decode)
    case Rejected(response) => (response, db)
    case Caller(id) =>
      match m
      case Create(body) => CreateEvent(db, id, body, parse)
      case Delete(eventId) => DeleteEvent(db, id, eventId, cascade)
      case Join(eventId) => RegisterForEvent(db, id, eventId)
      case Leave(eventId) => UnregisterFromEvent(db, id, eventId)
      case Mine => (Response(200, ""), db)
  }
}
