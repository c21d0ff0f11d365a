# EventHub: a Dafny model of the event-management core

EventHub is a small event-management application. A Flask + MySQL backend
keeps users, events and registrations behind a REST API. A React client lets
visitors sign up, log in, browse events, register for events and manage their
own events. This project models both halves as pure functions over immutable
data and proves what each promises:

- **Backend** (`backend/app.py`). The database is an abstract value
  `Store.Db`. It holds users and events keyed by id, and the Registrations
  table as a sequence of `(user, event)` rows, so "no duplicate pairs" is a
  real invariant. Each route is a transition `(db, caller, request) ->
  (response, db')` with the handler's status codes and messages (module
  `Routes`). The two read routes are methods that produce a listing ordered
  by date (module `Listings`). Cross-route properties live in
  `StoreProperties`.
- **Client** (`frontend/src`). The client is modelled as follows:
  - Every asynchronous API call is one atomic step whose outcome,
    `Reply<T> = Ok(data) | Err(ApiError)`, is a parameter.
  - Time is integer milliseconds, with `now` as a parameter.
  - Modules: `ApiClient` (the two interceptors), `AuthContext` (the
    session store), `RegistrationWidget` (the per-event
    register/unregister widget), `EventCard`, `EventHooks` (the list
    hooks), `MyEvents`, `RegisterPage`, `CreateEventPage` and `DateUtils`.
- **Both halves together.** `Agreement` checks the client's decisions
  against the backend's answers. `EventTime` follows an event date from the
  create form through the backend and back to a card.

Parameters stand for the code that is not modelled:

- `decode` is JWT decoding.
- `verify` is bcrypt's password check.
- `passwordHash` is bcrypt's output.
- `parse` is dateutil's parser.
- `dayOf` is dayjs's calendar day.
- `cascade` says whether deleting an event deletes its registrations. The
  schema that decides this is not part of this model.

## Model

| member | source | states |
|---|---|---|
| Routes.StripBearer | backend/app.py:42-43 | The token is the header minus a leading "Bearer " when present, and the header itself otherwise; it is never longer than the header |
| Routes.StripBearerRoundTrip | backend/app.py:42-43 | Prefixing a token with "Bearer " and stripping gives the token back |
| Routes.Authenticate | backend/app.py:37-51 | A missing or empty header gives 401 "Token is missing"; otherwise the caller is admitted exactly when the stripped token decodes to a user id, and every refusal is a 401 |
| Routes.RegisterUser | backend/app.py:58-88 | A missing field gives 400 and an existing e-mail gives 409, both with the database unchanged; otherwise 201 and exactly one account is added, with role "participant" when none is given; validity is preserved |
| Routes.Login | backend/app.py:101-135 | Missing credentials give 400; a login succeeds exactly when some account has that e-mail and the password verifies against its hash, and returns that account's id, name, e-mail and role; every refusal is 400 or 401 |
| Routes.WholeSeconds | backend/app.py:196-197 | The stored instant is the parsed one rounded down to whole seconds |
| Routes.CreateEvent | backend/app.py:185-212 | A missing title or date gives 400; an unparsable date gives 400; both leave the database unchanged; otherwise 201 and exactly one event is added, created by the caller; validity is preserved |
| Routes.DeleteEvent | backend/app.py:230-248 | A missing event gives 404 even for an unauthorised caller; otherwise a caller who is neither admin nor creator gets 403 with nothing changed; otherwise 200, the event is gone, and the registrations go with it exactly when the database cascades |
| Routes.RegisterForEvent | backend/app.py:268-286 | A missing event gives 404; an existing pair gives 409; both leave the database unchanged; otherwise 201 and exactly that pair is added; no duplicate pairs arise |
| Routes.UnregisterFromEvent | backend/app.py:306-315 | 200 exactly when the caller's pair exists, and then only that pair is removed; otherwise 404 with the database unchanged; the event's existence is never checked |
| Routes.Dispatch | backend/app.py:33-52 | The token gate runs before every authenticated handler, the four that change state and the caller's-events read alike: a refused request gets the gate's own answer, which is a 401, and nothing changes; an admitted request is answered by its handler, called with the decoded user id; the read changes nothing and answers 200; every route keeps the database valid |
| Routes.MayDelete | backend/app.py:242-243 | An admin may delete any event and a creator their own; nobody else may |
| Routes.RegisterUserAsWritten | backend/app.py:64-95 | As written, the answer is a bare 500 exactly where the route means to answer 400, because the `finally` clause reads an unbound `connection`; every other answer and every database change is the route's own |
| Routes.LoginAsWritten | backend/app.py:105-142 | As written, the 400 for missing credentials becomes a bare 500 for the same reason; every other outcome is the route's own |
| Routes.CreateEventAsWritten | backend/app.py:191-219 | As written, both 400s (missing fields, an unparsable date) become a bare 500; every other answer and every database change is the route's own |
| Listings.OrderByDate | backend/app.py:153-161 | The rows come out ordered by ascending date, each exactly once |
| Listings.GetEvents | backend/app.py:153-171 | Every event appears exactly once, with its creator's name and its registration count, by ascending date |
| Listings.GetUserEvents | backend/app.py:334-353 | Exactly the events the caller holds a registration for appear, each once, by ascending date |
| Listings.CountedView | backend/app.py:154-159 | An event's row copies the event's own fields; its count is the number of registration rows naming the event, which is the number of distinct registrants when no pair repeats; it names the creator exactly when the creator's account exists; without the count it is the user-events row |
| Store.CountIsRegistrants | backend/app.py:155-158 | Without duplicate pairs, an event's row count equals its number of distinct registrants |
| Store.Keep | backend/app.py:306-309 | Deleting rows by a condition keeps every row that fails it, as often as it occurred, and no other row |
| Store.CountIsMatchingRows | backend/app.py:155-158 | An event's count is the number of registration rows that name it |
| Store.WithoutShrinks | backend/app.py:306-313 | Deleting a pair removes at least one row exactly when the pair is present, and changes nothing otherwise |
| StoreProperties.RegisterUnregisterRoundTrip | backend/app.py:274-315 | A successful registration followed by unregistering the same pair restores the database exactly |
| StoreProperties.SecondRegisterConflicts | backend/app.py:274-277 | Registering twice without unregistering answers 409 the second time |
| StoreProperties.RegisterAddsToUserEvents | backend/app.py:280-286 | After a 201 the caller's registered events are the old ones plus this event |
| StoreProperties.UnregisterRemovesFromUserEvents | backend/app.py:306-315 | After a 200 the caller's registered events are the old ones minus this event |
| StoreProperties.RegisterCounts | backend/app.py:155-158 | A 201 raises this event's count by one and no other event's count |
| StoreProperties.UnregisterCounts | backend/app.py:306-315 | In a valid database a 200 lowers this event's count by one and no other event's count |
| StoreProperties.ListedCountIsRegistrants | backend/app.py:153-160 | In a valid database every listed count is the number of distinct registrants |
| StoreProperties.RegisterIgnoresDate | backend/app.py:268-286 | Whether a registration is accepted never depends on the event's date |
| StoreProperties.CascadeKeepsReferences | backend/app.py:245 | With cascading deletes, every route keeps registrations pointing at existing events |
| StoreProperties.CascadeIsObservable | backend/app.py:245 | Whether deletes cascade changes a later unregister's answer from 200 to 404 |
| StoreProperties.CascadeDeleteClearsCount | backend/app.py:245 | With cascading deletes no registration row is left counted for a deleted event; without, the event's count is unchanged |
| StoreProperties.EmptyIsValid | backend/app.py:54-88 | The empty database satisfies the invariants every route preserves |
| ApiClient.OnRequest | frontend/src/services/api.ts:9-14 | "Bearer <token>" is attached when storage holds a non-empty token; otherwise the request is untouched |
| ApiClient.OnResponse | frontend/src/services/api.ts:22-33 | Every reply reaches the caller unchanged; a 401 removes both storage entries, and any other reply leaves storage alone |
| ApiClient.UnauthorizedTwice | frontend/src/services/api.ts:25-28 | A second 401 after a first leaves storage cleared |
| ApiClient.NoTokenAfterUnauthorized | frontend/src/services/api.ts:10-28 | After a 401, the next request leaves with no bearer token from storage |
| AuthContext.Init | frontend/src/contexts/AuthContext.tsx:39-41 | Before the startup effect runs, there is no user and no token, and loading is on |
| AuthContext.Restore | frontend/src/contexts/AuthContext.tsx:43-54 | User, token and header are restored only when both storage entries are present; loading ends either way; the user/token pairing and the header-follows-token rule are preserved |
| AuthContext.Login | frontend/src/contexts/AuthContext.tsx:56-71 | Success sets token, user, both storage entries and the header; failure leaves the React state alone with the server's message or "Login failed", and a 401 still clears storage on its way through the interceptor |
| AuthContext.Register | frontend/src/contexts/AuthContext.tsx:73-81 | The account request carries the role, defaulting to "participant"; login is attempted only after creation succeeds; a failed login is reported as "Registration failed" |
| AuthContext.Logout | frontend/src/contexts/AuthContext.tsx:83-89 | User, token, both storage entries and the header are all cleared |
| AuthContext.LoginThenRestore | frontend/src/contexts/AuthContext.tsx:43-67 | After a successful login, a reload restores the same user, token and header |
| AuthContext.LogoutThenRestore | frontend/src/contexts/AuthContext.tsx:43-89 | After logout, a reload restores nobody |
| RegistrationWidget.Render | frontend/src/components/EventRegistrationStatus.tsx:83-131 | The view follows the precedence checking > logged out > ended > registered > register, each case exactly; the action button is enabled exactly when no request is in flight |
| RegistrationWidget.CheckStatus | frontend/src/components/EventRegistrationStatus.tsx:28-44 | Without a user no request is made; with one, the belief becomes "the returned list holds this event"; a failed check keeps the belief; checking ends in every case |
| RegistrationWidget.Begin | frontend/src/components/EventRegistrationStatus.tsx:56 | A request going out sets loading and changes nothing else |
| RegistrationWidget.HandleRegister | frontend/src/components/EventRegistrationStatus.tsx:50-67 | Without a user: a warning, no request and no change; otherwise success sets "registered" and notifies the parent, failure keeps the belief and shows the server's message or the fallback; loading ends either way |
| RegistrationWidget.FinishRegister | frontend/src/components/EventRegistrationStatus.tsx:57-66 | The registration request's completion: success sets "registered", notifies the parent and shows the success text; failure keeps the belief and shows the server's message or "Failed to register for event"; loading ends |
| RegistrationWidget.FinishUnregister | frontend/src/components/EventRegistrationStatus.tsx:71-80 | The unregistration request's completion: success clears "registered", notifies the parent and shows the success text; failure keeps the belief and shows the server's message or "Failed to unregister"; loading ends |
| RegistrationWidget.HandleUnregister | frontend/src/components/EventRegistrationStatus.tsx:69-81 | Success clears "registered" and notifies the parent; failure keeps the belief and shows the server's message or the fallback; loading ends either way |
| RegistrationWidget.InFlightDisablesButton | frontend/src/components/EventRegistrationStatus.tsx:112-126 | While a request is in flight the action button is disabled |
| RegistrationWidget.InitialShowsSpinner | frontend/src/components/EventRegistrationStatus.tsx:22-24 | The mounted widget is not registered, not loading, checking, and shows only a spinner |
| RegistrationWidget.CheckedWidgetMatchesResponse | frontend/src/components/EventRegistrationStatus.tsx:35-38 | After a check, an idle widget on an open event shows "registered" exactly when the returned list holds the event, and otherwise an enabled "Register" |
| RegistrationWidget.RegisterThenUnregister | frontend/src/components/EventRegistrationStatus.tsx:58-75 | Accepted register and unregister leave the belief "not registered", notifying the parent each time |
| EventCard.CanDeleteEvent | frontend/src/components/EventCard.tsx:53-55 | Nobody logged out may delete; an admin may delete any event; any other user exactly their own |
| EventCard.IsEventEnded | frontend/src/components/EventCard.tsx:68 | The card's "ended" test agrees with the date utilities' "past", whatever the calendar |
| EventCard.Render | frontend/src/components/EventCard.tsx:48-140 | The delete icon appears exactly when the user may delete; the widget appears exactly when requested, for this event, disabled exactly when the event has ended; the chip says "Past Event" exactly for ended events |
| EventCard.RenderDefault | frontend/src/components/EventCard.tsx:48 | By default the card shows the widget |
| EventCard.HandleDeleteEvent | frontend/src/components/EventCard.tsx:57-66 | The dialog closes either way; only a successful delete notifies the parent; the notice is the success text, or the server's message or the fallback |
| EventCard.NoDeleteWhenLoggedOut | frontend/src/components/EventCard.tsx:53-55 | Nobody logged out is offered deletion |
| EventCard.EndedMeansPastChip | frontend/src/components/EventCard.tsx:68-128 | The ended gate and the "Past Event" chip agree |
| EventHooks.BeginFetch | frontend/src/hooks/useEvents.ts:16-17 | A fetch starts with loading on and the error cleared, keeping the list |
| EventHooks.EndFetch | frontend/src/hooks/useEvents.ts:18-26 | Success replaces the list; failure keeps it and records the server's message or the fallback; loading ends either way |
| EventHooks.Fetch | frontend/src/hooks/useEvents.ts:14-27 | A whole fetch ends with the new list and no error, or with the old list and the error |
| EventHooks.FetchEvents | frontend/src/hooks/useEvents.ts:14-27 | Success shows the whole listing with no error; failure keeps the old list and records the server's message or "Failed to load events" |
| EventHooks.CreateEvent | frontend/src/hooks/useEvents.ts:29-45 | Returns true exactly on success, which refetches the events; failure keeps the state and shows the server's message or "Failed to create event" |
| EventHooks.DeleteEvent | frontend/src/hooks/useEvents.ts:47-58 | Returns true exactly on success, which refetches the events; failure keeps the state and shows the server's message or "Failed to delete event" |
| EventHooks.FetchUserEvents | frontend/src/hooks/useEvents.ts:80-93 | Success shows the caller's events with no error; failure keeps the old list and records the server's message or "Failed to load your events" |
| EventHooks.RegisterForEvent | frontend/src/hooks/useEvents.ts:95-106 | Returns true exactly on success, which refetches the caller's events; failure keeps the state and shows the server's message or "Failed to register for event" |
| EventHooks.UnregisterFromEvent | frontend/src/hooks/useEvents.ts:108-119 | Returns true exactly on success, which refetches the caller's events; failure keeps the state and shows the server's message or "Failed to unregister" |
| EventHooks.FirstEventsFetch | frontend/src/hooks/useEvents.ts:60-62 | The first fetch after mounting shows the listing, or an empty list with the error |
| EventHooks.Mutate | frontend/src/hooks/useEvents.ts:35-57 | A mutation reports success exactly when its call succeeded, and refetches only then; a failure changes no state and shows the server's message or the fallback |
| EventHooks.CreateSucceedsDespiteFailedRefetch | frontend/src/hooks/useEvents.ts:35-39 | A created event is reported as created even when the refetch after it fails |
| EventHooks.UserEventsFetchFailureKeepsList | frontend/src/hooks/useEvents.ts:80-92 | A failed user-events fetch keeps the list and records the message or "Failed to load your events" |
| EventHooks.FailedRegisterChangesNothing | frontend/src/hooks/useEvents.ts:95-106 | A failed registration returns false, does not refetch, and leaves the hook's state as it was |
| MyEvents.CreatedEvents | frontend/src/pages/MyEvents.tsx:55-58 | Exactly the events created by the logged-in user, none when logged out |
| MyEvents.CreatedEventsCounts | frontend/src/pages/MyEvents.tsx:55-58 | Each of the user's events appears on the tab as often as in the full listing, and no other event appears |
| MyEvents.CreatedEventsKeepOrder | frontend/src/pages/MyEvents.tsx:55-58 | The filter keeps the listing's order: the kept events sit at increasing positions of the full listing, and every position holding one of the user's events is kept |
| MyEvents.EmbeddedKeepsListingOrder | frontend/src/pages/MyEvents.tsx:55-58 | An order-keeping selection from a listing ordered by date with distinct ids is ordered by date with distinct ids |
| MyEvents.CreatedEventsOrdered | frontend/src/pages/MyEvents.tsx:55-58 | Fed a listing ordered by date with distinct ids, the "Created Events" tab is ordered by date with distinct ids |
| MyEvents.OnUser | frontend/src/pages/MyEvents.tsx:67-71 | Events are fetched only when someone is logged in |
| MyEvents.LoggedOutPageKeepsLoading | frontend/src/pages/MyEvents.tsx:43-71 | With nobody logged in, the mounted page stays on its spinner. The page is mounted only inside `ProtectedRoute` (frontend/src/App.tsx:110-114), so this state arises only if that guard lets a logged-out visitor through |
| MyEvents.FetchMyEvents | frontend/src/pages/MyEvents.tsx:48-65 | The registered list is stored before the all-events call runs; that call runs only after the first succeeds; its failure keeps the created list; loading ends either way |
| MyEvents.HandleUnregister | frontend/src/pages/MyEvents.tsx:73-81 | Success shows its notice and refetches, and a failed refetch adds its own "Failed to load your events" notice; failure shows the server's message or "Failed to unregister" and refetches nothing |
| MyEvents.StatusChip | frontend/src/pages/MyEvents.tsx:127-131 | The chip says "Upcoming" exactly for events strictly after now |
| MyEvents.VisibleCards | frontend/src/pages/MyEvents.tsx:135-216 | One card per event of the active tab, in the tab's order and nothing else; Unregister is offered exactly on the registered tab for events strictly after now |
| RegisterPage.Validate | frontend/src/pages/Register.tsx:47-55 | The form passes exactly when the passwords agree and are at least six characters; a mismatch is reported first |
| RegisterPage.HandleSubmit | frontend/src/pages/Register.tsx:44-68 | `register` is called exactly when the form passes, with the form's fields; navigation happens exactly on success; a failure shows its message; loading ends either way |
| RegisterPage.SixCharactersAccepted | frontend/src/pages/Register.tsx:52 | A password of exactly six characters is accepted |
| RegisterPage.MismatchReportedFirst | frontend/src/pages/Register.tsx:47-55 | When both checks fail, only the mismatch message is shown |
| RegisterPage.DefaultRoleIsParticipant | frontend/src/pages/Register.tsx:25-31 | An untouched role registers a participant |
| CreateEventPage.DefaultDate | frontend/src/pages/CreateEvent.tsx:19 | The picker starts one day after mounting |
| CreateEventPage.HandleSubmit | frontend/src/pages/CreateEvent.tsx:31-58 | A missing date or a date strictly before now is refused without a request; an unreadable date passes both checks but fails before the request with "Failed to create event"; exactly for a readable date not before now one POST carries the form's fields and the date; navigation happens exactly on success; loading ends either way |
| CreateEventPage.InvalidDateLooksLikeServerFailure | frontend/src/pages/CreateEvent.tsx:39-54 | An unreadable date sends nothing, yet shows the same notice as a server refusal without a message |
| CreateEventPage.NowIsNotPast | frontend/src/pages/CreateEvent.tsx:39 | A date equal to now passes |
| CreateEventPage.DefaultDatePasses | frontend/src/pages/CreateEvent.tsx:19-42 | The untouched date passes when the form is submitted within a day of mounting |
| DateUtils.GetEventStatus | frontend/src/utils/dateUtils.ts:18-37 | Exactly one of past, today and upcoming: past exactly before now; today exactly from now to the end of the same day; upcoming is after it; the result agrees with `isEventUpcoming` and `isEventToday` |
| DateUtils.UpcomingIsStrict | frontend/src/utils/dateUtils.ts:18-20 | `isEventUpcoming` is strict, so an event starting now is not upcoming, and an event upcoming now was upcoming at every earlier moment |
| DateUtils.TodayIsSameDay | frontend/src/utils/dateUtils.ts:22-24 | `isEventToday` is sharing a calendar day: every instant is today for itself, and the relation is symmetric |
| DateUtils.NowIsToday | frontend/src/utils/dateUtils.ts:30-33 | An event at this very instant is "today" and not upcoming |
| Agreement.AsReply | frontend/src/services/api.ts:22-33 | A route's answer reaches the client as success exactly for a 2xx status; any other status rejects, carrying that status and the body's message |
| Agreement.LoginUserIsAccount | backend/app.py:127-134 | The user a login hands the client is the account's own record |
| Agreement.StoredTokenReachesDecoder | frontend/src/services/api.ts:10-13 | A stored token passes through the bearer header and the server's stripping unchanged, so the server authenticates exactly as the token decodes |
| Agreement.RejectedTokenLogsOut | frontend/src/services/api.ts:25-28 | A request the token gate refuses changes nothing on the server and logs the client out |
| Agreement.NoTokenLogsOut | backend/app.py:37-39 | A client without a token gets "Token is missing" and ends up logged out |
| Agreement.DeleteOfferMatchesServer | frontend/src/components/EventCard.tsx:53-55 | The delete icon is offered to an account exactly when the server would answer the delete with 200 |
| Agreement.WidgetMatchesServer | frontend/src/components/EventRegistrationStatus.tsx:35-38 | Fed the caller's listing, the widget believes "registered" exactly when the server holds that registration |
| Agreement.JoinShowsRegistered | frontend/src/components/EventRegistrationStatus.tsx:35-38 | After the server accepts a registration, the next check shows "registered" |
| Agreement.LeaveShowsUnregistered | frontend/src/components/EventRegistrationStatus.tsx:35-38 | After the server accepts an unregistration, the next check shows "not registered" |
| Agreement.PastEventGateIsClientOnly | frontend/src/components/EventCard.tsx:68-139 | For an ended event the card shows the widget as ended, while the server would still accept the registration |
| Agreement.BoundaryAtNow | frontend/src/pages/MyEvents.tsx:127-135 | At the instant of the event, the events page says "Upcoming" and keeps the widget enabled, My Events says "Past Event" without Unregister, and the date utilities say "today" |
| Agreement.CreatedTabMatchesServer | frontend/src/pages/MyEvents.tsx:55-59 | Fed the all-events listing, the "Created Events" tab lists exactly the events the server records the user as creator of, each once, ordered by date |
| Agreement.HookJoinListsEvent | frontend/src/hooks/useEvents.ts:95-106 | After the server accepts a registration, the user-events hook reports success and its refetched list holds the event |
| Agreement.MyEventsLeaveDropsEvent | frontend/src/pages/MyEvents.tsx:73-78 | After the server accepts an unregistration, the refetched "Registered Events" tab no longer lists the event |
| Agreement.DeleteNotifiesExactlyWhenAllowed | frontend/src/components/EventCard.tsx:57-66 | Confirming a delete tells the parent to refetch exactly when the card offered that account the delete icon |
| Agreement.RegisterFormCreatesAccount | frontend/src/pages/Register.tsx:44-68 | A sign-up form that passes its checks, with a name and an unused e-mail, reaches the registration route, which creates an account with the form's fields and role; the client then logs in |
| Agreement.EmptySignUpLosesReason | backend/app.py:64-93 | As written, a registration request with empty fields, handed to `register`, ends in "Registration failed" instead of the server's 400 reason; the sign-up page's `required` fields keep it from sending one |
| Agreement.UntitledEventLosesReason | backend/app.py:191-217 | As written, an untitled event request, whatever its date text, makes the create page's handler show "Failed to create event" instead of the server's 400 reason; the page's `required` title field keeps it from sending one |
| EventTime.ShownAsWritten | backend/app.py:196-197 | As written, the instant a card shows is the picked one shifted by the browser's UTC offset, less the dropped sub-second part (under one second); exactly the shifted pick for whole-second picks |
| EventTime.AsWrittenShifts | backend/app.py:166-167 | Outside UTC the shown instant differs from the picked one |
| EventTime.FutureEventShownEnded | frontend/src/components/EventCard.tsx:68 | At UTC+05:30 an event created for one hour ahead is shown as ended |
| EventTime.ShownCorrected | backend/app.py:196-197 | Read back as UTC, the shown instant is the picked one up to the dropped sub-second part |
| EventTime.CorrectedKeepsEndedStatus | frontend/src/components/EventCard.tsx:68 | Read back as UTC, the ended test on the shown date agrees with the picked date, for whole-second picks |

## Left out

- SQL, connections, cursors and the 500 "Database connection failed" and "Database error" answers are not modelled. The database is an abstract value, and every route is taken to reach its decision.
- bcrypt and JWT are parameters. Token signing, the payload's `email`, `role` and `exp` claims, and the 24-hour expiry are not modelled. `Expired` and `Invalid` stand for what decoding can report.
- Routes.Login models the decision only. The token in the answer is not modelled.
- Routes.RegisterUser compares e-mails by exact equality. MySQL's default collations ignore case (and accents), so the deployed 409 check also refuses an e-mail differing only in case.
- Routes.Login finds the account by exact e-mail equality, where MySQL's default collations would also match an e-mail differing only in case.
- Routes.RegisterUser, Routes.Login and Routes.CreateEvent answer their missing-field and bad-date cases with the intended 400. As written those paths answer a bare 500 (see Findings and the `AsWritten` members), and the client then shows its fallback text, for instance "Failed to create event".
- Routes.RegisterUser and Routes.Login take the e-mail and role as given. A present-but-null JSON `role` (stored as NULL) cannot be expressed, because an absent key and a given value are the only cases.
- Routes.DeleteEvent requires the caller to have a Users row. With a valid token whose user was removed, the handler indexes a missing row and fails; that crash is not modelled.
- Routes.DeleteEvent does not decide whether the registrations of a deleted event survive. The schema that decides it is not part of this model, so `cascade` is a parameter. StoreProperties.CascadeIsObservable shows the choice is visible to clients.
- Every route is modelled as one serialized transition of the database. The duplicate checks in `register` and `register_for_event` (backend/app.py:76-85, backend/app.py:259-286) read and then insert in separate statements; the server runs threaded (backend/app.py:363) and no UNIQUE constraint on the e-mail or on the (user, event) pair is part of this model, so two concurrent requests could both pass the check. Such interleavings are not modelled, and `Store.Valid`'s "no duplicate e-mails, no duplicate registrations" holds only under this serialization.
- Listings.GetUserEvents returns each registered event once. The SQL join yields one row per registration row, so it would repeat an event only if a pair were duplicated; under the serialization above no route creates duplicates (`Store.Valid`).
- Listings.GetEvents and Listings.GetUserEvents leave the order of events with equal dates open, as `ORDER BY event_date` does.
- The `registered_at` and `created_at` columns, and the formatting of dates as text, are not modelled. Dates are integer milliseconds and parsing is a parameter.
- RegistrationWidget, EventHooks, MyEvents and both form pages treat each asynchronous handler as one atomic step. Interleavings and stale responses of concurrent requests are not modelled.
- Snackbar display, navigation (`navigate("/events")`) and the interceptor's redirect to /login are not modelled. The redirect reloads the page, which wipes the in-memory session; only the notice texts and a `navigated` flag are kept.
- EventHooks.Mutate omits the second notice a failed refetch shows. The failure appears as the hook's `error` instead.
- AuthContext.Restore takes the stored user as already parsed. JSON parsing of a corrupt "user" entry, which would throw, is not modelled.
- RegisterPage.Validate counts a password's characters as Dafny characters. JavaScript's `length` counts UTF-16 code units, which differ for characters outside the Basic Multilingual Plane.
- The browser's `required` attributes on the form fields are not modelled. The pages submit whatever the fields hold.
- CreateEventPage.DefaultDate treats "one day later" as a fixed 24 hours. Across a daylight-saving change, dayjs's calendar day is 23 or 25 hours.
- DateUtils.GetEventStatus takes the calendar day as the parameter `dayOf`. Time zones are not modelled.
- `formatEventDate` and `formatRelativeDate` are not modelled; they only format text.
- The files that only route and render (App, Home, Navbar, Login, Events) are not part of this model. The Login page only forwards to `login`, and the Events page repeats the list-hook pattern.

## Findings

| source | as written | input that shows it | evidently intended | confidence | as-written member | corrected member |
|---|---|---|---|---|---|---|
| backend/app.py:196-197, backend/app.py:166-167, frontend/src/components/EventCard.tsx:68 | The client sends the picked instant in UTC. The backend drops the offset when storing it, and returns the stored time with no offset. The client reads that text in the browser's local zone, so every date moves by the browser's UTC offset. | Browser at UTC+05:30, event created for one hour from now: it comes back 5.5 hours earlier, already ended, shown as "Past Event" with registration disabled | The date a card shows is the date that was picked | medium (the column type and the server's zone are not shown); not executed | EventTime.FutureEventShownEnded | EventTime.CorrectedKeepsEndedStatus |
| backend/app.py:64-65, backend/app.py:92-93, backend/app.py:105-106, backend/app.py:139-140, backend/app.py:191-199, backend/app.py:216-217 | The register, login and create-event handlers return their 400 answers before `connection` is assigned. Their `finally` clause then reads `connection`, raises UnboundLocalError, and the framework answers a bare 500 | A direct `POST /api/register` with body `{"name": "", "email": "a@b.c", "password": "secret"}`: a 500 with no JSON message instead of the 400 "Name, email, and password are required". The shipped pages mark these fields `required` (frontend/src/pages/Register.tsx:96-142, frontend/src/pages/CreateEvent.tsx:86), so the browser does not submit them empty and the pages do not hit it; any other client does | The 400 with the handler's message | high; not executed | Routes.RegisterUserAsWritten | Routes.RegisterUser |

The rest of the model treats event dates as the instants that were picked,
and early refusals as the 400s the handlers mean. Both are the corrected
readings. `Routes.LoginAsWritten` and `Routes.CreateEventAsWritten` state the
same defect for the other two handlers. `Agreement.EmptySignUpLosesReason`
and `Agreement.UntitledEventLosesReason` show what the client displays in
each case.
