/** frontend/src/pages/CreateEvent.tsx: the create-event form's submit
    handler. The picked date is an instant in milliseconds; its ISO-8601
    rendering is not modelled, the instant is carried instead. */
module CreateEventPage {
  import opened Types

  datatype Form = Form(title: string, description: string, location: string)

  /** dayjs's `add(1, "day")` as a fixed 24 hours. */
  const OneDay: int := 86_400_000

  /** The date picker's initial value: one day after the page was mounted. */
  function DefaultDate(mountedAt: int): (d: int)
    ensures d > mountedAt
  {
    mountedAt + OneDay
  }

  /** The body POSTed to /api/events. */
  datatype Payload = Payload(title: string, description: string, location: string, eventDate: int)

  datatype Submitted = Submitted(post: Option<Payload>, navigated: bool, notice: Notice, loading: bool)

  /** What the date picker hands `setEventDate`: nothing (the field was
      cleared), a date dayjs cannot read (a partly typed value), or an instant. */
  datatype PickedDate = NoDate | InvalidDate | Picked(instant: int)

  /** `handleSubmit`: a missing date or one strictly before `now` is refused
      without a request. An unreadable date passes both checks, since its
      comparison with now is false, and then fails while being turned into
      text, before any request, showing the generic failure text. Otherwise
      exactly one POST goes out with the form's fields and the date, and
      success navigates to the events page. */
  function HandleSubmit(f: Form, eventDate: PickedDate, now: int, reply: Reply<()>): (s: Submitted)
    ensures !s.loading
    ensures eventDate.NoDate? ==> s == Submitted(None, false, Notice(Error, "Please select an event date"), false)
    ensures eventDate.Picked? && eventDate.instant < now ==>
      s == Submitted(None, false, Notice(Error, "Event date cannot be in the past"), false)
    ensures eventDate.InvalidDate? ==> s == Submitted(None, false, Notice(Error, "Failed to create event"), false)
    ensures s.post.Some? <==> eventDate.Picked? && eventDate.instant >= now
    ensures s.post.Some? ==> s.post.value == Payload(f.title, f.description, f.location, eventDate.instant)
    ensures s.navigated <==> s.post.Some? && reply.Ok?
    ensures s.post.Some? && reply.Err? ==> s.notice == Notice(Error, MessageOr(reply.error, "Failed to create event"))
  {
    match eventDate
    case NoDate => Submitted(None, false, Notice(Error, "Please select an event date"), false)
    case InvalidDate => Submitted(None, false, Notice(Error, "Failed to create event"), false)
    case Picked(t) =>
      if t < now then Submitted(None, false, Notice(Error, "Event date cannot be in the past"), false)
      else
        var payload := Payload(f.title, f.description, f.location, t);
        match reply
        case Ok(_) => Submitted(Some(payload), true, Notice(Success, "Event created successfully!"), false)
        case Err(e) => Submitted(Some(payload), false, Notice(Error, MessageOr(e, "Failed to create event")), false)
  }

  /** An unreadable date sends nothing, yet the user sees exactly what a
      server refusal without a message would show. */
  lemma InvalidDateLooksLikeServerFailure(f: Form, now: int, t: int, e: ApiError, reply: Reply<()>)
    requires t >= now && e.message.None?
    ensures HandleSubmit(f, InvalidDate, now, reply).post.None?
    ensures HandleSubmit(f, InvalidDate, now, reply).notice == HandleSubmit(f, Picked(t), now, Err(e)).notice
  {
  }

  /** A date equal to now passes the past-date check. */
  lemma NowIsNotPast(f: Form, now: int, reply: Reply<()>)
    ensures HandleSubmit(f, Picked(now), now, reply).post.Some?
  {
  }

  /** The untouched date passes the check if the form is submitted within a day of mounting. */
  lemma DefaultDatePasses(f: Form, mountedAt: int, now: int, reply: Reply<()>)
    requires mountedAt <= now <= mountedAt + OneDay
    ensures HandleSubmit(f, Picked(DefaultDate(mountedAt)), now, reply).post.Some?
  {
  }
}
