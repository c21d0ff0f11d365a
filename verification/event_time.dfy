/** The trip an event date makes from the create form to a card. The client
    sends the picked instant as UTC text (`toISOString`); the backend parses
    it, drops the offset while formatting it for the database, and
    later returns the stored wall-clock time as text without any offset;
    the client parses that text in the browser's local time zone. `offset`
    is the browser's local time minus UTC in milliseconds, taken as constant
    (daylight-saving changes are not modelled). */
module EventTime {
  import opened Types
  import Routes
  import EventCard

  /** The instant the stored wall-clock time denotes when the client reads
      it: read as local time, as written. */
  function ReadAsLocal(wall: int, offset: int): int {
    wall - offset
  }

  /** Read as UTC, which is what the stored value is. */
  function ReadAsUtc(wall: int): int {
    wall
  }

  /** Picked instant to the instant a card shows, as written. */
  function ShownAsWritten(picked: int, offset: int): (shown: int)
    ensures shown <= picked - offset < shown + 1000
    ensures picked % 1000 == 0 ==> shown == picked - offset
  {
    ReadAsLocal(Routes.WholeSeconds(picked), offset)
  }

  /** Picked instant to the instant a card shows, when the stored value is read back as UTC. */
  function ShownCorrected(picked: int): (shown: int)
    ensures shown <= picked < shown + 1000
    ensures picked % 1000 == 0 ==> shown == picked
  {
    ReadAsUtc(Routes.WholeSeconds(picked))
  }

  /** As written, the shown instant differs from the picked one in every
      time zone other than UTC. */
  lemma AsWrittenShifts(picked: int, offset: int)
    requires picked % 1000 == 0 && offset != 0
    ensures ShownAsWritten(picked, offset) != picked
  {
  }

  /** In a browser at UTC+05:30, an event created for one hour from now
      comes back as an event that has already ended: the card shows
      "Past Event" and disables registration. */
  lemma FutureEventShownEnded(e: EventView, now: int)
    ensures var picked := now + 3_600_000;
            var shown := e.(eventDate := ShownAsWritten(picked, 19_800_000));
            picked > now && EventCard.IsEventEnded(shown, now)
            && EventCard.Render(shown, None, now, true).statusChip == "Past Event"
  {
  }

  /** Read back as UTC, the card's ended test on the shown date agrees with
      the picked date, apart from the sub-second part the backend drops. */
  lemma CorrectedKeepsEndedStatus(e: EventView, picked: int, now: int)
    requires picked % 1000 == 0
    ensures EventCard.IsEventEnded(e.(eventDate := ShownCorrected(picked)), now) <==> picked < now
  {
  }
}
