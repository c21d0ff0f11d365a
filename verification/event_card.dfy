/** frontend/src/components/EventCard.tsx: who is offered the delete
    action, what deleting does to the card, and when the registration widget
    is shown and disabled. */
module EventCard {
  import opened Types
  import DateUtils

  /** `canDeleteEvent`: a logged-in admin, or the event's creator. */
  predicate CanDeleteEvent(user: Option<User>, event: EventView)
    ensures CanDeleteEvent(user, event) ==> user.Some?
    ensures user.Some? && user.value.role == AdminRole ==> CanDeleteEvent(user, event)
    ensures user.Some? && user.value.role != AdminRole ==> (CanDeleteEvent(user, event) <==> user.value.userId == event.createdBy)
  {
    user.Some? && (user.value.role == AdminRole || user.value.userId == event.createdBy)
  }

  /** `dayjs(event.event_date).isBefore(dayjs())`. */
  predicate IsEventEnded(event: EventView, now: int)
    ensures IsEventEnded(event, now) <==> forall dayOf :: DateUtils.GetEventStatus(event.eventDate, now, dayOf) == DateUtils.Past
  {
    var oneDay := (t: int) => 0;
    assert DateUtils.GetEventStatus(event.eventDate, now, oneDay) == DateUtils.Past <==> event.eventDate < now;
    event.eventDate < now
  }

  /** The registration widget as the card mounts it: the event it is for and its `disabled` flag. */
  datatype WidgetProps = WidgetProps(eventId: nat, disabled: bool)

  /** What the card renders: the delete icon, the widget (if any), the status chip. */
  datatype CardView = CardView(deleteIcon: bool, widget: Option<WidgetProps>, statusChip: string)

  function Render(event: EventView, user: Option<User>, now: int, showRegistration: bool): (v: CardView)
    ensures v.deleteIcon <==> CanDeleteEvent(user, event)
    ensures v.widget.Some? <==> showRegistration
    ensures v.widget.Some? ==> v.widget.value == WidgetProps(event.eventId, IsEventEnded(event, now))
    ensures v.statusChip == (if event.eventDate < now then "Past Event" else "Upcoming")
  {
    CardView(
      CanDeleteEvent(user, event),
      if showRegistration then Some(WidgetProps(event.eventId, IsEventEnded(event, now))) else None,
      if IsEventEnded(event, now) then "Past Event" else "Upcoming")
  }

  /** The card's props default: `showRegistration = true`. */
  function RenderDefault(event: EventView, user: Option<User>, now: int): (v: CardView)
    ensures v.widget == Some(WidgetProps(event.eventId, IsEventEnded(event, now)))
  {
    Render(event, user, now, true)
  }

  /** The outcome of confirming the delete dialog. */
  datatype DeleteStep = DeleteStep(dialogOpen: bool, notifiedParent: bool, notice: Notice)

  /** `handleDeleteEvent`: a successful delete tells the parent to refetch, a
      failed one shows the server's message; the dialog closes either way. */
  function HandleDeleteEvent(reply: Reply<()>): (s: DeleteStep)
    ensures !s.dialogOpen
    ensures s.notifiedParent <==> reply.Ok?
    ensures reply.Ok? ==> s.notice == Notice(Success, "Event deleted successfully")
    ensures reply.Err? ==> s.notice == Notice(Error, MessageOr(reply.error, "Failed to delete event"))
  {
    match reply
    case Ok(_) => DeleteStep(false, true, Notice(Success, "Event deleted successfully"))
    case Err(e) => DeleteStep(false, false, Notice(Error, MessageOr(e, "Failed to delete event")))
  }

  /** A card never offers deletion to a visitor who is not logged in. */
  lemma NoDeleteWhenLoggedOut(event: EventView, now: int, showRegistration: bool)
    ensures !Render(event, None, now, showRegistration).deleteIcon
  {
  }

  /** The card's "ended" gate and the "Past Event" chip agree. */
  lemma EndedMeansPastChip(event: EventView, user: Option<User>, now: int)
    ensures IsEventEnded(event, now) <==> Render(event, user, now, true).statusChip == "Past Event"
  {
  }
}
