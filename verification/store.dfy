/** The backend's database (backend/app.py) as an immutable value: the Users
    and Events tables keyed by their auto-increment ids, and the
    Registrations table as the sequence of its rows in insertion order. */
module Store {
  import opened Types

  /** A row of the Users table. */
  datatype Account = Account(name: string, email: string, passwordHash: string, role: string)

  /** A row of the Events table; `eventDate` is in milliseconds. */
  datatype EventRecord = EventRecord(
    title: string,
    description: Option<string>,
    location: Option<string>,
    eventDate: int,
    createdBy: nat)

  /** A row of the Registrations table (its own id and timestamp are not observable here). */
  datatype Registration = Registration(userId: nat, eventId: nat)

  datatype Db = Db(
    users: map<nat, Account>,
    events: map<nat, EventRecord>,
    registrations: seq<Registration>,
    nextUserId: nat,
    nextEventId: nat)

  const EmptyDb: Db := Db(map[], map[], [], 1, 1)

  predicate UniqueEmails(users: map<nat, Account>) {
    forall a, b :: a in users && b in users && a != b ==> users[a].email != users[b].email
  }

  predicate NoDuplicatePairs(regs: seq<Registration>) {
    forall i, j :: 0 <= i < j < |regs| ==> regs[i] != regs[j]
  }

  /** What every reachable database satisfies: the id counters are fresh,
      e-mails are unique, and no (user, event) pair is registered twice. */
  predicate Valid(db: Db) {
    && (forall id :: id in db.users ==> id < db.nextUserId)
    && (forall id :: id in db.events ==> id < db.nextEventId)
    && UniqueEmails(db.users)
    && NoDuplicatePairs(db.registrations)
  }

  /** Every registration row names an existing event; kept when event
      deletion cascades to registrations. */
  predicate RegistrationsReferenceEvents(db: Db) {
    forall r :: r in db.registrations ==> r.eventId in db.events
  }

  predicate EmailTaken(users: map<nat, Account>, email: string) {
    exists id :: id in users && users[id].email == email
  }

  /** The rows of `regs` that `keep` accepts, in order. */
  function Keep(regs: seq<Registration>, keep: Registration -> bool): (kept: seq<Registration>)
    ensures forall x :: x in kept <==> x in regs && keep(x)
    ensures forall x :: multiset(kept)[x] == if keep(x) then multiset(regs)[x] else 0
    ensures |kept| <= |regs|
    decreases |regs|
  {
    if regs == [] then []
    else
      var last := regs[|regs| - 1];
      assert regs == regs[..|regs| - 1] + [last];
      Keep(regs[..|regs| - 1], keep) + (if keep(last) then [last] else [])
  }

  /** Accepts every row but `pair`. */
  function OtherPair(pair: Registration): Registration -> bool {
    (r: Registration) => r != pair
  }

  /** Accepts every row of an event other than `eventId`. */
  function OtherEvent(eventId: nat): Registration -> bool {
    (r: Registration) => r.eventId != eventId
  }

  /** `DELETE FROM Registrations WHERE user_id = u AND event_id = e`. */
  function Without(regs: seq<Registration>, pair: Registration): seq<Registration> {
    Keep(regs, OtherPair(pair))
  }

  /** The registration rows a cascading delete of event `eventId` leaves. */
  function DropEvent(regs: seq<Registration>, eventId: nat): seq<Registration> {
    Keep(regs, OtherEvent(eventId))
  }

  /** `COUNT(r.reg_id)` over the rows joined to event `eventId`. */
  function CountFor(regs: seq<Registration>, eventId: nat): nat {
    if regs == [] then 0
    else CountFor(regs[..|regs| - 1], eventId) + (if regs[|regs| - 1].eventId == eventId then 1 else 0)
  }

  /** The positions of the rows joined to event `eventId`. */
  function MatchingRows(regs: seq<Registration>, eventId: nat): set<nat> {
    set i | 0 <= i < |regs| && regs[i].eventId == eventId
  }

  /** The users holding a registration for event `eventId`. */
  function Registrants(regs: seq<Registration>, eventId: nat): set<nat> {
    set r | r in regs && r.eventId == eventId :: r.userId
  }

  /** Keeping every row changes nothing. */
  lemma {:induction false} KeepAll(regs: seq<Registration>, keep: Registration -> bool)
    requires forall x :: x in regs ==> keep(x)
    ensures Keep(regs, keep) == regs
    decreases |regs|
  {
    if regs != [] {
      var pre := regs[..|regs| - 1];
      var last := regs[|regs| - 1];
      assert regs == pre + [last];
      assert keep(last);
      KeepAll(pre, keep);
      assert Keep(regs, keep) == Keep(pre, keep) + [last];
    }
  }

  /** Rejecting a row that is present shortens the table. */
  lemma {:induction false} KeepDropsRejected(regs: seq<Registration>, keep: Registration -> bool, x: Registration)
    requires x in regs && !keep(x)
    ensures |Keep(regs, keep)| < |regs|
    decreases |regs|
  {
    var pre := regs[..|regs| - 1];
    assert regs == pre + [regs[|regs| - 1]];
    if regs[|regs| - 1] != x {
      assert x in pre;
      KeepDropsRejected(pre, keep, x);
    }
  }

  lemma NoDuplicatesAppend(s: seq<Registration>, x: Registration)
    requires NoDuplicatePairs(s) && x !in s
    ensures NoDuplicatePairs(s + [x])
  {
    var t := s + [x];
    forall i, j | 0 <= i < j < |t| ensures t[i] != t[j] {
      if j == |s| {
        assert t[i] == s[i];
      }
    }
  }

  lemma NoDuplicatesPrefix(s: seq<Registration>)
    requires NoDuplicatePairs(s) && s != []
    ensures NoDuplicatePairs(s[..|s| - 1]) && s[|s| - 1] !in s[..|s| - 1]
  {
    var pre := s[..|s| - 1];
    assert forall i :: 0 <= i < |pre| ==> pre[i] == s[i];
  }

  /** Filtering rows never introduces a duplicate pair. */
  lemma {:induction false} KeepNoDuplicates(regs: seq<Registration>, keep: Registration -> bool)
    requires NoDuplicatePairs(regs)
    ensures NoDuplicatePairs(Keep(regs, keep))
    decreases |regs|
  {
    if regs != [] {
      var pre := regs[..|regs| - 1];
      var last := regs[|regs| - 1];
      NoDuplicatesPrefix(regs);
      KeepNoDuplicates(pre, keep);
      if keep(last) {
        NoDuplicatesAppend(Keep(pre, keep), last);
      } else {
        assert Keep(regs, keep) == Keep(pre, keep) + [];
      }
    }
  }

  /** The row count of an event equals the number of distinct users
      registered for it, as long as no pair is duplicated. */
  lemma {:induction false} CountIsRegistrants(regs: seq<Registration>, eventId: nat)
    requires NoDuplicatePairs(regs)
    ensures CountFor(regs, eventId) == |Registrants(regs, eventId)|
    decreases |regs|
  {
    if regs == [] {
      assert Registrants(regs, eventId) == {};
    } else {
      var pre := regs[..|regs| - 1];
      var last := regs[|regs| - 1];
      assert regs == pre + [last];
      NoDuplicatesPrefix(regs);
      CountIsRegistrants(pre, eventId);
      if last.eventId == eventId {
        assert Registrants(regs, eventId) == Registrants(pre, eventId) + {last.userId};
        assert last.userId !in Registrants(pre, eventId);
      } else {
        assert Registrants(regs, eventId) == Registrants(pre, eventId);
      }
    }
  }

  /** The recursive count is the number of rows that name the event. */
  lemma {:induction false} CountIsMatchingRows(regs: seq<Registration>, eventId: nat)
    ensures CountFor(regs, eventId) == |MatchingRows(regs, eventId)|
    decreases |regs|
  {
    if regs == [] {
      assert MatchingRows(regs, eventId) == {};
    } else {
      var n := |regs| - 1;
      var pre := regs[..n];
      CountIsMatchingRows(pre, eventId);
      assert forall i :: 0 <= i < n ==> pre[i] == regs[i];
      if regs[n].eventId == eventId {
        assert MatchingRows(regs, eventId) == MatchingRows(pre, eventId) + {n};
        assert n !in MatchingRows(pre, eventId);
      } else {
        assert MatchingRows(regs, eventId) == MatchingRows(pre, eventId);
      }
    }
  }

  /** Appending one row adds one to its event's count and leaves every other count alone. */
  lemma CountAppend(regs: seq<Registration>, x: Registration, eventId: nat)
    ensures CountFor(regs + [x], eventId) == CountFor(regs, eventId) + (if x.eventId == eventId then 1 else 0)
  {
    assert (regs + [x])[..|regs|] == regs;
  }

  /** Deleting every row of a pair from a duplicate-free table takes exactly
      one off its event's count and leaves every other count alone. */
  lemma {:induction false} CountWithout(regs: seq<Registration>, pair: Registration, eventId: nat)
    requires NoDuplicatePairs(regs) && pair in regs
    ensures CountFor(Without(regs, pair), eventId)
         == CountFor(regs, eventId) - (if pair.eventId == eventId then 1 else 0)
    decreases |regs|
  {
    var pre := regs[..|regs| - 1];
    var last := regs[|regs| - 1];
    assert regs == pre + [last];
    NoDuplicatesPrefix(regs);
    if last == pair {
      assert !OtherPair(pair)(last);
      KeepAll(pre, OtherPair(pair));
      assert Without(regs, pair) == Keep(pre, OtherPair(pair)) + [];
      assert Without(regs, pair) == pre;
    } else {
      assert pair in pre;
      CountWithout(pre, pair, eventId);
      assert OtherPair(pair)(last);
      assert Without(regs, pair) == Without(pre, pair) + [last];
      CountAppend(Without(pre, pair), last, eventId);
    }
  }

  /** After a cascading delete no row is counted for the deleted event. */
  lemma {:induction false} CountDropped(regs: seq<Registration>, eventId: nat)
    ensures CountFor(DropEvent(regs, eventId), eventId) == 0
    decreases |regs|
  {
    if regs != [] {
      var pre := regs[..|regs| - 1];
      var last := regs[|regs| - 1];
      CountDropped(pre, eventId);
      if last.eventId != eventId {
        assert OtherEvent(eventId)(last);
        CountAppend(DropEvent(pre, eventId), last, eventId);
      } else {
        assert !OtherEvent(eventId)(last);
        assert DropEvent(regs, eventId) == DropEvent(pre, eventId) + [];
        assert DropEvent(regs, eventId) == DropEvent(pre, eventId);
      }
    }
  }

  /** The unregister handler's row count is zero exactly when the pair is absent. */
  lemma WithoutShrinks(regs: seq<Registration>, pair: Registration)
    ensures |Without(regs, pair)| < |regs| <==> pair in regs
    ensures pair !in regs ==> Without(regs, pair) == regs
  {
    if pair in regs {
      KeepDropsRejected(regs, OtherPair(pair), pair);
    } else {
      KeepAll(regs, OtherPair(pair));
    }
  }

  lemma FilterKeepsNoDuplicates(regs: seq<Registration>, pair: Registration, eventId: nat)
    ensures NoDuplicatePairs(regs) ==> NoDuplicatePairs(Without(regs, pair))
    ensures NoDuplicatePairs(regs) ==> NoDuplicatePairs(DropEvent(regs, eventId))
  {
    if NoDuplicatePairs(regs) {
      KeepNoDuplicates(regs, OtherPair(pair));
      KeepNoDuplicates(regs, OtherEvent(eventId));
    }
  }

  lemma AppendKeepsNoDuplicates(regs: seq<Registration>, x: Registration)
    requires x !in regs
    ensures NoDuplicatePairs(regs) ==> NoDuplicatePairs(regs + [x])
  {
    if NoDuplicatePairs(regs) { NoDuplicatesAppend(regs, x); }
  }
}
