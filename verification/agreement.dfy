/** How the client's decisions line up with the backend's answers: the
    bearer header the client builds is the token the server decodes, the
    delete icon is offered exactly to those the server lets delete, the
    registration widget reflects the server's registrations, and the one
    gate the client enforces alone (an event that has ended). */
module Agreement {
  import opened Types
  import opened Store
  import Routes
  import Listings
  import ApiClient
  import RegistrationWidget
  import EventCard
  import MyEvents
  import DateUtils
  import EventHooks
  import AuthContext
  import RegisterPage
  import CreateEventPage

  /** The user object the login route returns for account `id`; it serves
      the row for `LoginUserIsAccount`. */
  function UserOf(db: Db, id: nat): User
    requires id in db.users
  {
    var a := db.users[id];
    User(id, a.name, a.email, a.role)
  }

  /** How the HTTP client hands a route's response to its caller: a 2xx
      status resolves, any other status rejects with the body's message. */
  function AsReply(resp: Routes.Response): (r: Reply<()>)
    ensures r.Ok? <==> 200 <= resp.status < 300
    ensures r.Err? ==> r.error.status == Some(resp.status) && r.error.message == Some(resp.message)
  {
    if 200 <= resp.status < 300 then Ok(()) else Err(ApiError(Some(resp.status), Some(resp.message)))
  }

  /** The user a successful login hands the client is that account's own record. */
  lemma LoginUserIsAccount(db: Db, body: Routes.LoginBody, verify: (string, string) -> bool)
    requires UniqueEmails(db.users)
    requires Routes.Login(db, body, verify).LoggedIn?
    ensures var u := Routes.Login(db, body, verify).user;
            u.userId in db.users && u == UserOf(db, u.userId)
  {
  }

  /** A stored token travels through the request interceptor and the
      server's "Bearer " stripping unchanged, so the server authenticates
      the client exactly as the token itself decodes. */
  lemma StoredTokenReachesDecoder(st: ApiClient.Storage, config: ApiClient.RequestConfig,
                                    decode: string -> Routes.Decoded)
    requires Truthy(st.token)
    ensures var g := Routes.Authenticate(ApiClient.OnRequest(st, config).authorization, decode);
            (g.Caller? <==> decode(st.token.value).UserId?)
            && (g.Caller? ==> decode(st.token.value) == Routes.UserId(g.id))
  {
    var header := ApiClient.OnRequest(st, config).authorization;
    assert header == Some(Routes.BearerPrefix + st.token.value);
    Routes.StripBearerRoundTrip(st.token.value);
  }

  /** Any request the token gate refuses changes nothing on the server and,
      once its 401 reaches the response interceptor, logs the client out. */
  lemma RejectedTokenLogsOut(db: Db, st: ApiClient.Storage, config: ApiClient.RequestConfig,
                             decode: string -> Routes.Decoded, parse: string -> Option<int>,
                             cascade: bool, m: Routes.Request)
    requires m.Delete? ==> Routes.TokensNameUsers(db, decode)
    requires Routes.Authenticate(ApiClient.OnRequest(st, config).authorization, decode).Rejected?
    ensures var r := Routes.Dispatch(db, ApiClient.OnRequest(st, config).authorization, decode, parse, cascade, m);
            r.1 == db && ApiClient.OnResponse(st, AsReply(r.0)).0 == ApiClient.Cleared
  {
  }

  /** A client with no stored token, sending a request without a preset
      header, is refused by the gate and ends up logged out. */
  lemma NoTokenLogsOut(db: Db, st: ApiClient.Storage, decode: string -> Routes.Decoded,
                       parse: string -> Option<int>, cascade: bool, m: Routes.Request)
    requires m.Delete? ==> Routes.TokensNameUsers(db, decode)
    requires !Truthy(st.token)
    ensures var r := Routes.Dispatch(db, ApiClient.OnRequest(st, ApiClient.RequestConfig(None)).authorization,
                                     decode, parse, cascade, m);
            r == (Routes.Response(401, "Token is missing"), db)
            && ApiClient.OnResponse(st, AsReply(r.0)).0 == ApiClient.Cleared
  {
  }

  /** The card offers the delete icon to the logged-in account exactly when
      the server would answer the delete with 200. */
  lemma DeleteOfferMatchesServer(db: Db, caller: nat, eventId: nat, cascade: bool, event: EventView)
    requires caller in db.users && eventId in db.events
    requires event.createdBy == db.events[eventId].createdBy
    ensures EventCard.CanDeleteEvent(Some(UserOf(db, caller)), event)
        <==> Routes.DeleteEvent(db, caller, eventId, cascade).0.status == 200
  {
  }

  /** A widget whose status check received the caller's events listing
      believes "registered" exactly when the server holds that registration
      for an existing event. */
  lemma WidgetMatchesServer(db: Db, caller: nat, user: User, eventId: nat,
                          rows: seq<EventView>, w: RegistrationWidget.Widget)
    requires Listings.IsUserEventsListing(db, caller, rows)
    ensures RegistrationWidget.CheckStatus(w, Some(user), eventId, Ok(rows)).0.isRegistered
        <==> eventId in db.events && Registration(caller, eventId) in db.registrations
  {
    if Lists(rows, eventId) {
      var i :| 0 <= i < |rows| && rows[i].eventId == eventId;
      assert rows[i].eventId in Listings.RegisteredEventIds(db, caller);
    }
    if eventId in db.events && Registration(caller, eventId) in db.registrations {
      assert eventId in Listings.RegisteredEventIds(db, caller);
    }
  }

  /** After the server accepts a registration, the next status check shows the widget as registered. */
  lemma JoinShowsRegistered(db: Db, caller: nat, user: User, eventId: nat,
                          rows: seq<EventView>, w: RegistrationWidget.Widget)
    requires Routes.RegisterForEvent(db, caller, eventId).0.status == 201
    requires Listings.IsUserEventsListing(Routes.RegisterForEvent(db, caller, eventId).1, caller, rows)
    ensures RegistrationWidget.CheckStatus(w, Some(user), eventId, Ok(rows)).0.isRegistered
  {
    WidgetMatchesServer(Routes.RegisterForEvent(db, caller, eventId).1, caller, user, eventId, rows, w);
  }

  /** After the server accepts an unregistration, the next status check shows the widget as not registered. */
  lemma LeaveShowsUnregistered(db: Db, caller: nat, user: User, eventId: nat,
                          rows: seq<EventView>, w: RegistrationWidget.Widget)
    requires Routes.UnregisterFromEvent(db, caller, eventId).0.status == 200
    requires Listings.IsUserEventsListing(Routes.UnregisterFromEvent(db, caller, eventId).1, caller, rows)
    ensures !RegistrationWidget.CheckStatus(w, Some(user), eventId, Ok(rows)).0.isRegistered
  {
    WidgetMatchesServer(Routes.UnregisterFromEvent(db, caller, eventId).1, caller, user, eventId, rows, w);
  }

  /** After the server accepts a registration, the user-events hook reports
      success and its refetched list holds the event. */
  lemma HookJoinListsEvent(db: Db, caller: nat, eventId: nat, rows: seq<EventView>, st: EventHooks.ListState)
    requires Routes.RegisterForEvent(db, caller, eventId).0.status == 201
    requires Listings.IsUserEventsListing(Routes.RegisterForEvent(db, caller, eventId).1, caller, rows)
    ensures var m := EventHooks.RegisterForEvent(st, AsReply(Routes.RegisterForEvent(db, caller, eventId).0), Ok(rows));
            m.result && m.refetched && Lists(m.state.items, eventId) && m.state.error.None?
  {
    var db' := Routes.RegisterForEvent(db, caller, eventId).1;
    assert eventId in Listings.RegisteredEventIds(db', caller);
  }

  /** After the server accepts an unregistration, the My Events page's
      refetched "Registered Events" tab no longer lists the event. */
  lemma MyEventsLeaveDropsEvent(db: Db, caller: nat, user: User, eventId: nat, p: MyEvents.Page,
                                rows: seq<EventView>, all: Reply<seq<EventView>>)
    requires Routes.UnregisterFromEvent(db, caller, eventId).0.status == 200
    requires Listings.IsUserEventsListing(Routes.UnregisterFromEvent(db, caller, eventId).1, caller, rows)
    ensures var u := MyEvents.HandleUnregister(p, Some(user), AsReply(Routes.UnregisterFromEvent(db, caller, eventId).0), Ok(rows), all);
            u.refetched && u.page.registered == rows && !Lists(u.page.registered, eventId)
  {
    var db' := Routes.UnregisterFromEvent(db, caller, eventId).1;
    forall i | 0 <= i < |rows| ensures rows[i].eventId != eventId {
      assert rows[i].eventId in Listings.RegisteredEventIds(db', caller);
    }
  }

  /** Confirming the delete dialog tells the parent to refetch exactly when
      the card offered the delete icon to that account. */
  lemma DeleteNotifiesExactlyWhenAllowed(db: Db, caller: nat, eventId: nat, cascade: bool, event: EventView)
    requires caller in db.users && eventId in db.events
    requires event.createdBy == db.events[eventId].createdBy
    ensures EventCard.HandleDeleteEvent(AsReply(Routes.DeleteEvent(db, caller, eventId, cascade).0)).notifiedParent
        <==> EventCard.CanDeleteEvent(Some(UserOf(db, caller)), event)
  {
    DeleteOfferMatchesServer(db, caller, eventId, cascade, event);
  }

  /** A sign-up form that passes the page's checks, with a name and an
      e-mail no account holds, travels through `register` to the
      registration route, which creates an account with the form's fields
      and role; the client then goes on to log in. */
  lemma RegisterFormCreatesAccount(db: Db, f: RegisterPage.Form, s: AuthContext.Session, passwordHash: string,
                                   loggedIn: Reply<AuthContext.LoginData>)
    requires RegisterPage.Validate(f).None? && f.name != "" && f.email != ""
    requires !EmailTaken(db.users, f.email)
    ensures var call := RegisterPage.HandleSubmit(f, None).call.value;
            var sent := AuthContext.Register(s, call.name, call.email, call.password, Some(call.role), Ok(()), loggedIn).sent;
            var r := Routes.RegisterUser(db, Routes.RegisterBody(Some(sent.name), Some(sent.email), Some(sent.password), Some(sent.role)), passwordHash);
            && r.0.status == 201
            && r.1.users[db.nextUserId] == Account(f.name, f.email, passwordHash, f.role)
            && AuthContext.Register(s, call.name, call.email, call.password, Some(call.role), AsReply(r.0), loggedIn).loginAttempted
  {
  }

  /** As written, a registration request with empty fields is answered with
      the framework's bare 500, so the client shows its own "Registration
      failed" where the route's 400 would have shown the server's reason.
      The sign-up page's fields are `required`, so the browser does not send
      such a request from that page; a direct request to the route does, and
      the same client handling applies to its answer. */
  lemma EmptySignUpLosesReason(db: Db, s: AuthContext.Session, passwordHash: string,
                               loggedIn: Reply<AuthContext.LoginData>)
    ensures var body := Routes.RegisterBody(Some(""), Some(""), Some(""), None);
            && AuthContext.Register(s, "", "", "", None, AsReply(Routes.RegisterUserAsWritten(db, body, passwordHash).0), loggedIn).error
               == Some("Registration failed")
            && AuthContext.Register(s, "", "", "", None, AsReply(Routes.RegisterUser(db, body, passwordHash).0), loggedIn).error
               == Some("Name, email, and password are required")
  {
  }

  /** As written, an event request without a title comes back as a bare 500,
      and the create page's handler shows "Failed to create event" instead of
      the server's reason. The title is checked first, so this holds whatever
      date text is sent for the picked instant. The page's title field is
      `required`, so the browser does not submit it empty; the route is
      reached this way only by a direct request. */
  lemma UntitledEventLosesReason(db: Db, caller: nat, f: CreateEventPage.Form, picked: int, now: int,
                                 dateText: string, parse: string -> Option<int>)
    requires f.title == "" && picked >= now
    ensures var body := Routes.EventBody(Some(f.title), Some(f.description), Some(f.location), Some(dateText));
            && CreateEventPage.HandleSubmit(f, CreateEventPage.Picked(picked), now, AsReply(Routes.CreateEventAsWritten(db, caller, body, parse).0)).notice
               == Notice(Error, "Failed to create event")
            && CreateEventPage.HandleSubmit(f, CreateEventPage.Picked(picked), now, AsReply(Routes.CreateEvent(db, caller, body, parse).0)).notice
               == Notice(Error, "Title and event date are required")
  {
  }

  /** The "event has ended" gate exists on the client only: for an event in
      the past the card renders the widget as ended, while the server would
      still accept the registration. */
  lemma PastEventGateIsClientOnly(db: Db, caller: nat, user: User, eventId: nat, now: int,
                                  w: RegistrationWidget.Widget)
    requires eventId in db.events && db.events[eventId].eventDate < now
    requires Registration(caller, eventId) !in db.registrations
    requires !w.checkingStatus
    ensures var card := EventCard.Render(Listings.PlainView(db, eventId), Some(user), now, true);
            && card.widget == Some(EventCard.WidgetProps(eventId, true))
            && RegistrationWidget.Render(w, Some(user), card.widget.value.disabled) == RegistrationWidget.EventEnded
            && Routes.RegisterForEvent(db, caller, eventId).0.status == 201
  {
  }

  /** An event dated exactly now is "Upcoming" with an enabled widget on the
      events page, "Past Event" without Unregister on the My Events page, and
      "today" for the date utilities. The three rules draw the line
      differently at that one instant. */
  lemma BoundaryAtNow(e: EventView, user: Option<User>, dayOf: int -> int)
    ensures var card := EventCard.Render(e, user, e.eventDate, true);
            && card.statusChip == "Upcoming"
            && card.widget == Some(EventCard.WidgetProps(e.eventId, false))
            && MyEvents.StatusChip(e, e.eventDate) == "Past Event"
            && !MyEvents.UnregisterVisible(0, e, e.eventDate)
            && DateUtils.GetEventStatus(e.eventDate, e.eventDate, dayOf) == DateUtils.Today
  {
  }

  /** The "Created Events" tab, fed the all-events listing, lists exactly the
      events the server records the user as creator of, each once, by ascending date. */
  lemma {:induction false} CreatedTabMatchesServer(db: Db, user: User, rows: seq<EventView>)
    requires Listings.IsEventsListing(db, rows)
    ensures forall id :: Lists(MyEvents.CreatedEvents(rows, Some(user)), id)
                    <==> id in db.events && db.events[id].createdBy == user.userId
    ensures Listings.SortedByDate(MyEvents.CreatedEvents(rows, Some(user)))
    ensures Listings.DistinctIds(MyEvents.CreatedEvents(rows, Some(user)))
  {
    MyEvents.CreatedEventsOrdered(rows, Some(user));
    var mine := MyEvents.CreatedEvents(rows, Some(user));
    forall id ensures Lists(mine, id) <==> id in db.events && db.events[id].createdBy == user.userId {
      if Lists(mine, id) {
        var i :| 0 <= i < |mine| && mine[i].eventId == id;
        assert mine[i] in rows;
        var j :| 0 <= j < |rows| && rows[j] == mine[i];
        assert rows[j] == Listings.CountedView(db, id);
      }
      if id in db.events && db.events[id].createdBy == user.userId {
        assert Lists(rows, id);
        var j :| 0 <= j < |rows| && rows[j].eventId == id;
        assert rows[j] == Listings.CountedView(db, id);
        assert rows[j] in mine;
        var i :| 0 <= i < |mine| && mine[i] == rows[j];
      }
    }
  }
}
