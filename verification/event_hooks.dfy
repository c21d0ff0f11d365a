/** frontend/src/hooks/useEvents.ts: the two list hooks, `useEvents` (all
    events) and `useUserEvents` (the caller's events). Both keep
    `{items, loading, error}`, refetch the whole list after a successful
    mutation, and never throw out of a fetch. */
module EventHooks {
  import opened Types

  datatype ListState = ListState(items: seq<EventView>, loading: bool, error: Option<string>)

  /** A hook's state on mount: empty, loading, no error. */
  const Mounted: ListState := ListState([], true, None)

  const EventsFetchFallback: string := "Failed to load events"
  const UserEventsFetchFallback: string := "Failed to load your events"

  /** The start of a fetch: loading on, error cleared. */
  function BeginFetch(st: ListState): (st': ListState)
    ensures st'.loading && st'.error.None? && st'.items == st.items
  {
    ListState(st.items, true, None)
  }

  /** The end of a fetch: success replaces the list, failure keeps it and
      records the server's message or `fallback`; loading ends either way. */
  function EndFetch(st: ListState, reply: Reply<seq<EventView>>, fallback: string): (st': ListState)
    ensures !st'.loading
    ensures reply.Ok? ==> st'.items == reply.data && st'.error == st.error
    ensures reply.Err? ==> st'.items == st.items && st'.error == Some(MessageOr(reply.error, fallback))
  {
    match reply
    case Ok(items) => ListState(items, false, st.error)
    case Err(e) => ListState(st.items, false, Some(MessageOr(e, fallback)))
  }

  /** One whole fetch (`fetchEvents` or `fetchUserEvents`). */
  function Fetch(st: ListState, reply: Reply<seq<EventView>>, fallback: string): (st': ListState)
    ensures !st'.loading
    ensures reply.Ok? ==> st' == ListState(reply.data, false, None)
    ensures reply.Err? ==> st' == ListState(st.items, false, Some(MessageOr(reply.error, fallback)))
  {
    EndFetch(BeginFetch(st), reply, fallback)
  }

  /** The result of a mutation: the new state, the boolean the hook returns,
      whether a refetch ran, and the notice shown for the mutation. */
  datatype Mutated = Mutated(state: ListState, result: bool, refetched: bool, notice: Notice)

  /** The shared shape of `createEvent`, `deleteEvent`, `registerForEvent`
      and `unregisterFromEvent`: on success, a success notice, a full
      refetch and `true`; on failure, the server's message or
      `failFallback`, no refetch, state untouched, and `false`. The refetch
      cannot make the mutation report failure, since a fetch never throws. */
  function Mutate(st: ListState, reply: Reply<()>, refetch: Reply<seq<EventView>>,
                  fetchFallback: string, successText: string, failFallback: string): (m: Mutated)
    ensures m.result <==> reply.Ok?
    ensures m.refetched <==> reply.Ok?
    ensures reply.Ok? ==> m.state == Fetch(st, refetch, fetchFallback) && m.notice == Notice(Success, successText)
    ensures reply.Err? ==> m.state == st && m.notice == Notice(Error, MessageOr(reply.error, failFallback))
  {
    match reply
    case Ok(_) => Mutated(Fetch(st, refetch, fetchFallback), true, true, Notice(Success, successText))
    case Err(e) => Mutated(st, false, false, Notice(Error, MessageOr(e, failFallback)))
  }

  /** `fetchEvents`: the whole list of events, or the old list and the
      server's message or "Failed to load events". */
  function FetchEvents(st: ListState, reply: Reply<seq<EventView>>): (st': ListState)
    ensures reply.Ok? ==> st' == ListState(reply.data, false, None)
    ensures reply.Err? ==> st' == ListState(st.items, false, Some(MessageOr(reply.error, "Failed to load events")))
  {
    Fetch(st, reply, EventsFetchFallback)
  }

  /** `createEvent`: success refetches the events and returns true. */
  function CreateEvent(st: ListState, reply: Reply<()>, refetch: Reply<seq<EventView>>): (m: Mutated)
    ensures m.result <==> reply.Ok?
    ensures reply.Ok? ==> m.state == FetchEvents(st, refetch) && m.notice == Notice(Success, "Event created successfully!")
    ensures reply.Err? ==> m.state == st && m.notice == Notice(Error, MessageOr(reply.error, "Failed to create event"))
  {
    Mutate(st, reply, refetch, EventsFetchFallback, "Event created successfully!", "Failed to create event")
  }

  /** `deleteEvent`: success refetches the events and returns true. */
  function DeleteEvent(st: ListState, reply: Reply<()>, refetch: Reply<seq<EventView>>): (m: Mutated)
    ensures m.result <==> reply.Ok?
    ensures reply.Ok? ==> m.state == FetchEvents(st, refetch) && m.notice == Notice(Success, "Event deleted successfully")
    ensures reply.Err? ==> m.state == st && m.notice == Notice(Error, MessageOr(reply.error, "Failed to delete event"))
  {
    Mutate(st, reply, refetch, EventsFetchFallback, "Event deleted successfully", "Failed to delete event")
  }

  /** `fetchUserEvents`: the caller's events, or the old list and the
      server's message or "Failed to load your events". */
  function FetchUserEvents(st: ListState, reply: Reply<seq<EventView>>): (st': ListState)
    ensures reply.Ok? ==> st' == ListState(reply.data, false, None)
    ensures reply.Err? ==> st' == ListState(st.items, false, Some(MessageOr(reply.error, "Failed to load your events")))
  {
    Fetch(st, reply, UserEventsFetchFallback)
  }

  /** `registerForEvent`: success refetches the caller's events and returns true. */
  function RegisterForEvent(st: ListState, reply: Reply<()>, refetch: Reply<seq<EventView>>): (m: Mutated)
    ensures m.result <==> reply.Ok?
    ensures reply.Ok? ==> m.state == FetchUserEvents(st, refetch) && m.notice == Notice(Success, "Successfully registered for event!")
    ensures reply.Err? ==> m.state == st && m.notice == Notice(Error, MessageOr(reply.error, "Failed to register for event"))
  {
    Mutate(st, reply, refetch, UserEventsFetchFallback, "Successfully registered for event!", "Failed to register for event")
  }

  /** `unregisterFromEvent`: success refetches the caller's events and returns true. */
  function UnregisterFromEvent(st: ListState, reply: Reply<()>, refetch: Reply<seq<EventView>>): (m: Mutated)
    ensures m.result <==> reply.Ok?
    ensures reply.Ok? ==> m.state == FetchUserEvents(st, refetch) && m.notice == Notice(Success, "Successfully unregistered from event")
    ensures reply.Err? ==> m.state == st && m.notice == Notice(Error, MessageOr(reply.error, "Failed to unregister"))
  {
    Mutate(st, reply, refetch, UserEventsFetchFallback, "Successfully unregistered from event", "Failed to unregister")
  }

  /** The events page's first fetch after mounting: success shows the
      listing; failure leaves the list empty and shows the message. */
  lemma FirstEventsFetch(reply: Reply<seq<EventView>>)
    ensures reply.Ok? ==> FetchEvents(Mounted, reply).items == reply.data
    ensures reply.Err? ==> FetchEvents(Mounted, reply) == ListState([], false, Some(MessageOr(reply.error, EventsFetchFallback)))
  {
  }

  /** A created event is reported as created even when the refetch after it
      fails; the failed refetch shows up as the hook's error instead. */
  lemma CreateSucceedsDespiteFailedRefetch(st: ListState, e: ApiError)
    ensures var m := CreateEvent(st, Ok(()), Err(e));
            m.result && m.state.items == st.items && m.state.error == Some(MessageOr(e, EventsFetchFallback))
  {
  }

  /** A failed fetch of the user's events keeps the list and reports the server's message or the fallback. */
  lemma UserEventsFetchFailureKeepsList(st: ListState, e: ApiError)
    ensures FetchUserEvents(st, Err(e)) == ListState(st.items, false, Some(MessageOr(e, "Failed to load your events")))
  {
  }

  /** A failed registration leaves the user-events list, loading flag and error exactly as they were. */
  lemma FailedRegisterChangesNothing(st: ListState, e: ApiError, refetch: Reply<seq<EventView>>)
    ensures var m := RegisterForEvent(st, Err(e), refetch);
            !m.result && !m.refetched && m.state == st
  {
  }
}
