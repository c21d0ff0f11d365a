/** Shapes shared by the backend model and the client model: the JSON records
    the REST endpoints exchange (frontend/src/types/index.ts), and the outcome
    of one HTTP call as the client's HTTP library hands it to a handler. */
module Types {

  datatype Option<+T> = None | Some(value: T)

  /** JavaScript and Python truthiness of an optional string: an absent value
      and the empty string are both false. */
  predicate Truthy(s: Option<string>) {
    s.Some? && s.value != ""
  }

  const AdminRole: string := "admin"
  const ParticipantRole: string := "participant"

  /** The role an account gets when none is given: the backend's
      `data.get('role', 'participant')` and the client's `register` default alike. */
  function RoleOrParticipant(role: Option<string>): string {
    if role.Some? then role.value else ParticipantRole
  }

  /** The user object the login endpoint returns and the client keeps. */
  datatype User = User(userId: nat, name: string, email: string, role: string)

  /** One row of an event listing as the client receives it. Dates are
      integer milliseconds. `registrationCount` is present in the all-events
      listing only. */
  datatype EventView = EventView(
    eventId: nat,
    title: string,
    description: Option<string>,
    location: Option<string>,
    eventDate: int,
    createdBy: nat,
    creatorName: Option<string>,
    registrationCount: Option<nat>)

  /** A failed HTTP call: `status` is absent when no response arrived at all,
      `message` is the `message` field of the response body when it has one. */
  datatype ApiError = ApiError(status: Option<int>, message: Option<string>)

  /** The outcome of one asynchronous API call. */
  datatype Reply<+T> = Ok(data: T) | Err(error: ApiError)

  /** The client's `error.response?.data?.message || fallback`. */
  function MessageOr(e: ApiError, fallback: string): string {
    if Truthy(e.message) then e.message.value else fallback
  }

  /** A transient notification (the snackbar): severity and text. */
  datatype Severity = Success | Info | Warning | Error
  datatype Notice = Notice(severity: Severity, text: string)

  /** True when some row of `rows` is the event `eventId`. */
  predicate Lists(rows: seq<EventView>, eventId: nat) {
    exists i :: 0 <= i < |rows| && rows[i].eventId == eventId
  }
}
