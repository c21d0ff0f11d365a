/** frontend/src/utils/dateUtils.ts: classifying an event date against the
    current time. Instants are integer milliseconds; `dayOf` maps an instant
    to its calendar day in the browser's time zone (dayjs's "same day"). */
module DateUtils {

  /** `dayjs(date).isAfter(dayjs())`. */
  predicate IsEventUpcoming(date: int, now: int) {
    date > now
  }

  /** `dayjs(date).isSame(dayjs(), "day")`. */
  predicate IsEventToday(date: int, now: int, dayOf: int -> int) {
    dayOf(date) == dayOf(now)
  }

  const Past: string := "past"
  const Today: string := "today"
  const Upcoming: string := "upcoming"

  /** `getEventStatus`: "past" when the date is before now (even earlier on
      the same day), otherwise "today" on the same calendar day, otherwise
      "upcoming". */
  function GetEventStatus(date: int, now: int, dayOf: int -> int): (status: string)
    ensures status in {Past, Today, Upcoming}
    ensures status == Past <==> date < now
    ensures status == Today <==> now <= date && dayOf(date) == dayOf(now)
    ensures status == Upcoming <==> now <= date && dayOf(date) != dayOf(now)
    ensures status == Upcoming ==> IsEventUpcoming(date, now)
    ensures status == Past ==> !IsEventUpcoming(date, now)
    ensures status == Today ==> IsEventToday(date, now, dayOf)
  {
    if date < now then Past
    else if dayOf(date) == dayOf(now) then Today
    else Upcoming
  }

  /** "Upcoming" is strict and stable looking back: an event starting now
      is not upcoming, and one upcoming now was upcoming at every earlier moment. */
  lemma UpcomingIsStrict(date: int, now: int, earlier: int)
    requires earlier <= now
    ensures !IsEventUpcoming(now, now)
    ensures IsEventUpcoming(date, now) ==> IsEventUpcoming(date, earlier)
  {
  }

  /** "Today" is sharing a calendar day: every instant is today for itself,
      and the relation is symmetric. */
  lemma TodayIsSameDay(date: int, now: int, dayOf: int -> int)
    ensures IsEventToday(now, now, dayOf)
    ensures IsEventToday(date, now, dayOf) <==> IsEventToday(now, date, dayOf)
  {
  }

  /** The event that starts this very instant is "today", not "past" nor "upcoming". */
  lemma NowIsToday(now: int, dayOf: int -> int)
    ensures GetEventStatus(now, now, dayOf) == Today
    ensures !IsEventUpcoming(now, now)
  {
  }
}
