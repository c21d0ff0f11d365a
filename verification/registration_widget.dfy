/** frontend/src/components/EventRegistrationStatus.tsx: the per-event
    widget that reconciles the client's belief "I am registered" with the
    server. Each asynchronous handler is one atomic step whose API outcome
    is a parameter; `Begin` and the matching completion split a request so
    that the in-flight state can be rendered. */
module RegistrationWidget {
  import opened Types

  datatype Widget = Widget(isRegistered: bool, loading: bool, checkingStatus: bool)

  /** What the widget renders. Buttons carry their caption and whether they are enabled. */
  datatype View =
    | Spinner
    | LoginPrompt
    | EventEnded
    | RegisteredView(unregisterCaption: string, unregisterEnabled: bool)
    | RegisterButton(caption: string, enabled: bool)

  /** The result of a click handler: the new state, whether a request was
      sent, whether the parent's `onRegistrationChange` ran, and the notice shown. */
  datatype Step = Step(widget: Widget, requested: bool, notifiedParent: bool, notice: Option<Notice>)

  const Initial: Widget := Widget(false, false, true)

  /** The render selection, in the source's order of precedence. */
  function Render(w: Widget, user: Option<User>, disabled: bool): (v: View)
    ensures w.checkingStatus <==> v == Spinner
    ensures v == LoginPrompt <==> !w.checkingStatus && user.None?
    ensures v == EventEnded <==> !w.checkingStatus && user.Some? && disabled
    ensures v.RegisteredView? <==> !w.checkingStatus && user.Some? && !disabled && w.isRegistered
    ensures v.RegisterButton? <==> !w.checkingStatus && user.Some? && !disabled && !w.isRegistered
    ensures v.RegisteredView? ==> (v.unregisterEnabled <==> !w.loading)
    ensures v.RegisterButton? ==> (v.enabled <==> !w.loading)
  {
    if w.checkingStatus then Spinner
    else if user.None? then LoginPrompt
    else if disabled then EventEnded
    else if w.isRegistered then
      RegisteredView(if w.loading then "Unregistering..." else "Unregister", !w.loading)
    else RegisterButton(if w.loading then "Registering..." else "Register", !w.loading)
  }

  /** `checkRegistrationStatus`: without a user no request is made; with one,
      the belief becomes "some returned event has this id". A failed request
      leaves the belief alone. Checking ends in every case. */
  function CheckStatus(w: Widget, user: Option<User>, eventId: nat, reply: Reply<seq<EventView>>): (r: (Widget, bool))
    ensures !r.0.checkingStatus && r.0.loading == w.loading
    ensures r.1 <==> user.Some?
    ensures user.Some? && reply.Ok? ==> (r.0.isRegistered <==> Lists(reply.data, eventId))
    ensures user.None? || reply.Err? ==> r.0.isRegistered == w.isRegistered
  {
    if user.None? then (w.(checkingStatus := false), false)
    else match reply
      case Ok(events) => (w.(isRegistered := Lists(events, eventId), checkingStatus := false), true)
      case Err(_) => (w.(checkingStatus := false), true)
  }

  /** `setLoading(true)` as a request goes out. */
  function Begin(w: Widget): (w': Widget)
    ensures w'.loading && w'.isRegistered == w.isRegistered && w'.checkingStatus == w.checkingStatus
  {
    w.(loading := true)
  }

  /** The registration request's completion. */
  function FinishRegister(w: Widget, reply: Reply<()>): (s: Step)
    ensures !s.widget.loading && s.requested
    ensures s.notifiedParent <==> reply.Ok?
    ensures reply.Ok? ==> s.widget.isRegistered && s.notice == Some(Notice(Success, "Successfully registered for event!"))
    ensures reply.Err? ==>
      && s.widget.isRegistered == w.isRegistered
      && s.notice == Some(Notice(Error, MessageOr(reply.error, "Failed to register for event")))
    ensures s.widget.checkingStatus == w.checkingStatus
  {
    match reply
    case Ok(_) => Step(w.(isRegistered := true, loading := false), true, true, Some(Notice(Success, "Successfully registered for event!")))
    case Err(e) => Step(w.(loading := false), true, false, Some(Notice(Error, MessageOr(e, "Failed to register for event"))))
  }

  /** `handleRegister`: without a user, a warning and nothing else. */
  function HandleRegister(w: Widget, user: Option<User>, reply: Reply<()>): (s: Step)
    ensures user.None? ==> s == Step(w, false, false, Some(Notice(Warning, "Please login to register for events")))
    ensures user.Some? ==> s == FinishRegister(Begin(w), reply)
    ensures user.Some? ==> !s.widget.loading && (s.widget.isRegistered <==> reply.Ok? || w.isRegistered)
  {
    if user.None? then Step(w, false, false, Some(Notice(Warning, "Please login to register for events")))
    else FinishRegister(Begin(w), reply)
  }

  /** The unregistration request's completion. */
  function FinishUnregister(w: Widget, reply: Reply<()>): (s: Step)
    ensures !s.widget.loading && s.requested
    ensures s.notifiedParent <==> reply.Ok?
    ensures reply.Ok? ==> !s.widget.isRegistered && s.notice == Some(Notice(Success, "Successfully unregistered from event"))
    ensures reply.Err? ==>
      && s.widget.isRegistered == w.isRegistered
      && s.notice == Some(Notice(Error, MessageOr(reply.error, "Failed to unregister")))
    ensures s.widget.checkingStatus == w.checkingStatus
  {
    match reply
    case Ok(_) => Step(w.(isRegistered := false, loading := false), true, true, Some(Notice(Success, "Successfully unregistered from event")))
    case Err(e) => Step(w.(loading := false), true, false, Some(Notice(Error, MessageOr(e, "Failed to unregister"))))
  }

  /** `handleUnregister`: has no user check of its own; its button is only
      rendered for a logged-in user. */
  function HandleUnregister(w: Widget, reply: Reply<()>): (s: Step)
    ensures s == FinishUnregister(Begin(w), reply)
    ensures !s.widget.loading && (s.widget.isRegistered <==> reply.Err? && w.isRegistered)
  {
    FinishUnregister(Begin(w), reply)
  }

  /** While a request is in flight the action button is disabled. */
  lemma InFlightDisablesButton(w: Widget, user: Option<User>, disabled: bool)
    requires !w.checkingStatus && user.Some? && !disabled
    ensures var v := Render(Begin(w), user, disabled);
            (v.RegisteredView? && !v.unregisterEnabled) || (v.RegisterButton? && !v.enabled)
  {
  }

  /** Whatever else the state holds, a widget that is still checking shows only the spinner. */
  lemma InitialShowsSpinner(user: Option<User>, disabled: bool)
    ensures !Initial.isRegistered && !Initial.loading && Initial.checkingStatus
    ensures Render(Initial, user, disabled) == Spinner
  {
  }

  /** After a status check for a logged-in user, on an event that has not
      ended, the widget shows "registered" exactly when the returned list
      holds the event, and otherwise offers an enabled Register button. */
  lemma CheckedWidgetMatchesResponse(w: Widget, user: User, eventId: nat, events: seq<EventView>)
    requires !w.loading
    ensures var v := Render(CheckStatus(w, Some(user), eventId, Ok(events)).0, Some(user), false);
            (v.RegisteredView? <==> Lists(events, eventId))
            && (v == RegisterButton("Register", true) <==> !Lists(events, eventId))
  {
  }

  /** Register then unregister, both accepted, leaves the belief "not registered". */
  lemma RegisterThenUnregister(w: Widget, user: User)
    ensures var s1 := HandleRegister(w, Some(user), Ok(()));
            var s2 := HandleUnregister(s1.widget, Ok(()));
            s1.widget.isRegistered && !s2.widget.isRegistered && s1.notifiedParent && s2.notifiedParent
  {
  }
}
