/** Properties relating several backend routes: the register/unregister
    round trip, the effect of each on the listings, and what the cascade
    assumption on event deletion changes. */
module StoreProperties {
  import opened Types
  import opened Store
  import opened Routes
  import opened Listings

  /** A successful registration followed by an unregistration of the same
      pair restores the database exactly. */
  lemma RegisterUnregisterRoundTrip(db: Db, caller: nat, eventId: nat)
    requires RegisterForEvent(db, caller, eventId).0.status == 201
    ensures var db1 := RegisterForEvent(db, caller, eventId).1;
            UnregisterFromEvent(db1, caller, eventId) == (Response(200, "Successfully unregistered from event"), db)
  {
    var pair := Registration(caller, eventId);
    var regs := db.registrations;
    assert Without(regs + [pair], pair) == Without(regs, pair) + [] by {
      assert (regs + [pair])[..|regs|] == regs;
      assert !OtherPair(pair)(pair);
    }
    WithoutShrinks(regs, pair);
    assert Without(regs + [pair], pair) == regs;
    var db1 := db.(registrations := regs + [pair]);
    assert pair in db1.registrations;
    assert db1.(registrations := Without(db1.registrations, pair)) == db;
  }

  /** Registering twice without unregistering in between is refused with 409. */
  lemma SecondRegisterConflicts(db: Db, caller: nat, eventId: nat)
    requires RegisterForEvent(db, caller, eventId).0.status == 201
    ensures var db1 := RegisterForEvent(db, caller, eventId).1;
            RegisterForEvent(db1, caller, eventId) == (Response(409, "Already registered for this event"), db1)
  {
  }

  /** After a successful registration the caller's events are the old ones plus this event. */
  lemma RegisterAddsToUserEvents(db: Db, caller: nat, eventId: nat)
    requires RegisterForEvent(db, caller, eventId).0.status == 201
    ensures RegisteredEventIds(RegisterForEvent(db, caller, eventId).1, caller)
         == RegisteredEventIds(db, caller) + {eventId}
  {
  }

  /** After a successful unregistration the event is gone from the caller's events, and nothing else is. */
  lemma UnregisterRemovesFromUserEvents(db: Db, caller: nat, eventId: nat)
    requires UnregisterFromEvent(db, caller, eventId).0.status == 200
    ensures RegisteredEventIds(UnregisterFromEvent(db, caller, eventId).1, caller)
         == RegisteredEventIds(db, caller) - {eventId}
  {
  }

  /** A successful registration adds one to the event's registration count
      and changes no other event's count. */
  lemma RegisterCounts(db: Db, caller: nat, eventId: nat, other: nat)
    requires RegisterForEvent(db, caller, eventId).0.status == 201
    ensures CountFor(RegisterForEvent(db, caller, eventId).1.registrations, other)
         == CountFor(db.registrations, other) + (if other == eventId then 1 else 0)
  {
    CountAppend(db.registrations, Registration(caller, eventId), other);
  }

  /** In a valid database a successful unregistration takes one off the
      event's registration count and changes no other event's count. */
  lemma UnregisterCounts(db: Db, caller: nat, eventId: nat, other: nat)
    requires Valid(db)
    requires UnregisterFromEvent(db, caller, eventId).0.status == 200
    ensures CountFor(UnregisterFromEvent(db, caller, eventId).1.registrations, other)
         == CountFor(db.registrations, other) - (if other == eventId then 1 else 0)
  {
    CountWithout(db.registrations, Registration(caller, eventId), other);
  }

  /** In a valid database each event's registration count is its number of distinct registrants. */
  lemma ListedCountIsRegistrants(db: Db, rows: seq<EventView>, i: nat)
    requires Valid(db) && IsEventsListing(db, rows) && i < |rows|
    ensures rows[i].registrationCount == Some(|Registrants(db.registrations, rows[i].eventId)|)
  {
    CountIsRegistrants(db.registrations, rows[i].eventId);
  }

  /** The register route never looks at the event's date: an event that
      has already taken place is accepted like any other. */
  lemma RegisterIgnoresDate(db: Db, caller: nat, eventId: nat, date: int)
    requires eventId in db.events && Registration(caller, eventId) !in db.registrations
    ensures var db' := db.(events := db.events[eventId := db.events[eventId].(eventDate := date)]);
            RegisterForEvent(db', caller, eventId).0 == Response(201, "Successfully registered for event")
  {
  }

  /** With cascading deletes every route keeps registrations pointing at existing events. */
  lemma CascadeKeepsReferences(db: Db, caller: nat, eventId: nat, body: EventBody, parse: string -> Option<int>)
    requires RegistrationsReferenceEvents(db)
    requires caller in db.users
    ensures RegistrationsReferenceEvents(DeleteEvent(db, caller, eventId, true).1)
    ensures RegistrationsReferenceEvents(RegisterForEvent(db, caller, eventId).1)
    ensures RegistrationsReferenceEvents(UnregisterFromEvent(db, caller, eventId).1)
    ensures RegistrationsReferenceEvents(CreateEvent(db, caller, body, parse).1)
  {
    var deleted := DeleteEvent(db, caller, eventId, true);
    if deleted.0.status == 200 {
      forall r | r in deleted.1.registrations ensures r.eventId in deleted.1.events {
        assert r in DropEvent(db.registrations, eventId);
        assert r in db.registrations && OtherEvent(eventId)(r);
      }
    }
    var left := UnregisterFromEvent(db, caller, eventId);
    if left.0.status == 200 {
      forall r | r in left.1.registrations ensures r in db.registrations {
      }
    }
  }

  /** Without cascading deletes, a deleted event's registrations survive:
      the registrant can still "unregister" from the deleted event with 200,
      where a cascading database answers 404. The choice is observable. */
  lemma CascadeIsObservable()
    ensures var e := EventRecord("t", None, None, 0, 1);
            var db := Db(map[1 := Account("n", "e", "h", ParticipantRole)], map[1 := e], [Registration(1, 1)], 2, 2);
            && UnregisterFromEvent(DeleteEvent(db, 1, 1, false).1, 1, 1).0.status == 200
            && UnregisterFromEvent(DeleteEvent(db, 1, 1, true).1, 1, 1).0.status == 404
  {
    var e := EventRecord("t", None, None, 0, 1);
    var db := Db(map[1 := Account("n", "e", "h", ParticipantRole)], map[1 := e], [Registration(1, 1)], 2, 2);
    var regs := DeleteEvent(db, 1, 1, true).1.registrations;
    assert regs == DropEvent([Registration(1, 1)], 1);
    assert Registration(1, 1) !in regs;
  }

  /** A cascading delete leaves no registration row counted for the deleted
      event; without cascading, the event's rows and count stay as they were. */
  lemma CascadeDeleteClearsCount(db: Db, caller: nat, eventId: nat)
    requires caller in db.users
    ensures DeleteEvent(db, caller, eventId, true).0.status == 200 ==>
            CountFor(DeleteEvent(db, caller, eventId, true).1.registrations, eventId) == 0
    ensures DeleteEvent(db, caller, eventId, false).0.status == 200 ==>
            CountFor(DeleteEvent(db, caller, eventId, false).1.registrations, eventId) == CountFor(db.registrations, eventId)
  {
    CountDropped(db.registrations, eventId);
  }

  /** Every reachable database is valid: the empty one is, and each route keeps validity. */
  lemma EmptyIsValid()
    ensures Valid(EmptyDb) && RegistrationsReferenceEvents(EmptyDb)
  {
  }
}
