/** The two read routes of backend/app.py, `GET /api/events` and
    `GET /api/user/events`, as listings computed from the database and
    ordered by ascending event date. The SQL leaves the order of events
    with equal dates open; the listing predicates leave it open too. */
module Listings {
  import opened Types
  import opened Store

  /** `LEFT JOIN Users u ON e.created_by = u.user_id`: the creator's name, if the creator exists. */
  function CreatorName(db: Db, e: EventRecord): Option<string> {
    if e.createdBy in db.users then Some(db.users[e.createdBy].name) else None
  }

  /** An event row as the user-events listing returns it (no registration count). */
  function PlainView(db: Db, id: nat): (v: EventView)
    requires id in db.events
    ensures v.eventId == id && v.eventDate == db.events[id].eventDate && v.createdBy == db.events[id].createdBy
  {
    var e := db.events[id];
    EventView(id, e.title, e.description, e.location, e.eventDate, e.createdBy, CreatorName(db, e), None)
  }

  /** An event row as the all-events listing returns it: the event's own
      columns, its creator's name when the creator exists, and the number of
      registration rows naming it; without duplicate pairs that is its
      number of distinct registrants. */
  function CountedView(db: Db, id: nat): (v: EventView)
    requires id in db.events
    ensures var e := db.events[id];
            && v.eventId == id && v.title == e.title && v.description == e.description
            && v.location == e.location && v.eventDate == e.eventDate && v.createdBy == e.createdBy
    ensures v.creatorName.Some? <==> db.events[id].createdBy in db.users
    ensures v.creatorName.Some? ==> v.creatorName.value == db.users[db.events[id].createdBy].name
    ensures v.registrationCount == Some(|MatchingRows(db.registrations, id)|)
    ensures NoDuplicatePairs(db.registrations) ==> v.registrationCount == Some(|Registrants(db.registrations, id)|)
    ensures v.(registrationCount := None) == PlainView(db, id)
  {
    CountIsMatchingRows(db.registrations, id);
    if NoDuplicatePairs(db.registrations) then
      CountIsRegistrants(db.registrations, id);
      PlainView(db, id).(registrationCount := Some(CountFor(db.registrations, id)))
    else
      PlainView(db, id).(registrationCount := Some(CountFor(db.registrations, id)))
  }

  predicate SortedByDate(s: seq<EventView>) {
    forall i, j :: 0 <= i < j < |s| ==> s[i].eventDate <= s[j].eventDate
  }

  predicate DistinctIds(s: seq<EventView>) {
    forall i, j :: 0 <= i < j < |s| ==> s[i].eventId != s[j].eventId
  }

  /** What `GET /api/events` returns: every event exactly once, with its
      creator's name and its registration count, by ascending date. */
  predicate IsEventsListing(db: Db, rows: seq<EventView>) {
    && SortedByDate(rows)
    && DistinctIds(rows)
    && (forall i :: 0 <= i < |rows| ==> rows[i].eventId in db.events && rows[i] == CountedView(db, rows[i].eventId))
    && (forall id :: id in db.events ==> Lists(rows, id))
  }

  /** The events `user` holds a registration for. */
  function RegisteredEventIds(db: Db, user: nat): set<nat> {
    set id | id in db.events && Registration(user, id) in db.registrations
  }

  /** What `GET /api/user/events` returns: exactly the events the caller is
      registered for, each once, by ascending date. */
  predicate IsUserEventsListing(db: Db, user: nat, rows: seq<EventView>) {
    && SortedByDate(rows)
    && DistinctIds(rows)
    && (forall i :: 0 <= i < |rows| ==> rows[i].eventId in RegisteredEventIds(db, user) && rows[i] == PlainView(db, rows[i].eventId))
    && (forall id :: id in RegisteredEventIds(db, user) ==> Lists(rows, id))
  }

  /** Every non-empty set of rows has one with the earliest date. */
  lemma {:induction false} EarliestExists(rows: set<EventView>)
    requires rows != {}
    ensures exists m :: m in rows && forall o :: o in rows ==> m.eventDate <= o.eventDate
    decreases |rows|
  {
    var x :| x in rows;
    var rest := rows - {x};
    if rest != {} {
      EarliestExists(rest);
      var m :| m in rest && forall o :: o in rest ==> m.eventDate <= o.eventDate;
      if x.eventDate < m.eventDate {
        assert forall o :: o in rows ==> x.eventDate <= o.eventDate;
      } else {
        assert forall o :: o in rows ==> m.eventDate <= o.eventDate;
      }
    } else {
      assert rows == {x};
    }
  }

  /** `ORDER BY e.event_date ASC` over a set of rows: repeatedly takes an
      earliest remaining row. */
  method OrderByDate(rows: set<EventView>) returns (s: seq<EventView>)
    ensures SortedByDate(s)
    ensures forall i, j :: 0 <= i < j < |s| ==> s[i] != s[j]
    ensures forall v :: v in s <==> v in rows
  {
    s := [];
    var pending := rows;
    while pending != {}
      invariant SortedByDate(s)
      invariant forall i, j :: 0 <= i < j < |s| ==> s[i] != s[j]
      invariant forall v :: v in s <==> v in rows && v !in pending
      invariant pending <= rows
      invariant forall i, o :: 0 <= i < |s| && o in pending ==> s[i].eventDate <= o.eventDate
      decreases pending
    {
      EarliestExists(pending);
      var m :| m in pending && forall o :: o in pending ==> m.eventDate <= o.eventDate;
      s := s + [m];
      pending := pending - {m};
    }
  }

  /** GET /api/events. */
  method GetEvents(db: Db) returns (rows: seq<EventView>)
    ensures IsEventsListing(db, rows)
    ensures |rows| == |db.events|
  {
    var views := set id | id in db.events :: CountedView(db, id);
    rows := OrderByDate(views);
    forall i | 0 <= i < |rows|
      ensures rows[i].eventId in db.events && rows[i] == CountedView(db, rows[i].eventId)
    {
      assert rows[i] in views;
    }
    assert DistinctIds(rows);
    forall id | id in db.events ensures Lists(rows, id) {
      assert CountedView(db, id) in views;
      var i :| 0 <= i < |rows| && rows[i] == CountedView(db, id);
    }
    IdsCoverCount(rows, db.events.Keys);
  }

  /** A listing with distinct ids drawn from `ids` and covering `ids` has one row per id. */
  lemma IdsCoverCount(rows: seq<EventView>, ids: set<nat>)
    requires DistinctIds(rows)
    requires forall i :: 0 <= i < |rows| ==> rows[i].eventId in ids
    requires forall id :: id in ids ==> Lists(rows, id)
    ensures |rows| == |ids|
  {
    var idSeq := seq(|rows|, i requires 0 <= i < |rows| => rows[i].eventId);
    assert forall i, j :: 0 <= i < j < |idSeq| ==> idSeq[i] != idSeq[j];
    assert Elements(idSeq) == ids by {
      forall id | id in ids ensures id in idSeq {
        var i :| 0 <= i < |rows| && rows[i].eventId == id;
        assert idSeq[i] == id;
      }
    }
    DistinctSeqCard(idSeq);
  }

  function Elements(s: seq<nat>): set<nat> {
    set x | x in s
  }

  lemma {:induction false} DistinctSeqCard(s: seq<nat>)
    requires forall i, j :: 0 <= i < j < |s| ==> s[i] != s[j]
    ensures |Elements(s)| == |s|
    decreases |s|
  {
    if s == [] {
      assert Elements(s) == {};
    } else {
      var pre := s[..|s| - 1];
      DistinctSeqCard(pre);
      assert forall i :: 0 <= i < |pre| ==> pre[i] == s[i];
      var y := s[|s| - 1];
      assert y !in Elements(pre);
      assert Elements(s) == Elements(pre) + {y};
    }
  }

  /** GET /api/user/events for the authenticated `user`. The SQL yields one
      row per registration row; without duplicate pairs (which no route
      creates) that is one row per registered event, as returned here. */
  method GetUserEvents(db: Db, user: nat) returns (rows: seq<EventView>)
    ensures IsUserEventsListing(db, user, rows)
    ensures |rows| == |RegisteredEventIds(db, user)|
  {
    var views := set id | id in RegisteredEventIds(db, user) :: PlainView(db, id);
    rows := OrderByDate(views);
    forall i | 0 <= i < |rows|
      ensures rows[i].eventId in RegisteredEventIds(db, user) && rows[i] == PlainView(db, rows[i].eventId)
    {
      assert rows[i] in views;
    }
    assert DistinctIds(rows);
    forall id | id in RegisteredEventIds(db, user) ensures Lists(rows, id) {
      assert PlainView(db, id) in views;
      var i :| 0 <= i < |rows| && rows[i] == PlainView(db, id);
    }
    IdsCoverCount(rows, RegisteredEventIds(db, user));
  }
}
