/** frontend/src/pages/MyEvents.tsx: the "My Events" view with a tab of
    events the user registered for and a tab of events the user created. */
module MyEvents {
  import opened Types
  import Listings

  datatype Page = Page(registered: seq<EventView>, created: seq<EventView>, loading: bool, tab: nat)

  const Mounted: Page := Page([], [], true, 0)

  const LoadFailure: string := "Failed to load your events"

  /** The page fetches only when someone is logged in. */
  predicate ShouldFetch(user: Option<User>) {
    user.Some?
  }

  /** `event.created_by === user?.user_id`. */
  predicate CreatedBy(user: Option<User>, e: EventView) {
    user.Some? && e.createdBy == user.value.userId
  }

  /** The events of `all` the user created, in their original order. */
  function CreatedEvents(all: seq<EventView>, user: Option<User>): (mine: seq<EventView>)
    ensures forall e :: e in mine <==> e in all && CreatedBy(user, e)
    ensures |mine| <= |all|
    ensures user.None? ==> mine == []
  {
    if all == [] then []
    else
      var pre := CreatedEvents(all[..|all| - 1], user);
      var last := all[|all| - 1];
      assert all == all[..|all| - 1] + [last];
      if CreatedBy(user, last) then pre + [last] else pre
  }

  /** Each of the user's events appears on the tab as often as in `all`, and no other event does. */
  lemma {:induction false} CreatedEventsCounts(all: seq<EventView>, user: Option<User>)
    ensures forall e :: multiset(CreatedEvents(all, user))[e] == if CreatedBy(user, e) then multiset(all)[e] else 0
    decreases |all|
  {
    if all != [] {
      var pre := all[..|all| - 1];
      var last := all[|all| - 1];
      assert all == pre + [last];
      CreatedEventsCounts(pre, user);
      assert multiset(all) == multiset(pre) + multiset{last};
    }
  }

  /** `idx` picks the elements of `sub` out of `all` at strictly increasing positions. */
  ghost predicate Embeds(idx: seq<nat>, sub: seq<EventView>, all: seq<EventView>) {
    && |idx| == |sub|
    && (forall k :: 0 <= k < |idx| ==> idx[k] < |all| && sub[k] == all[idx[k]])
    && (forall k, l :: 0 <= k < l < |idx| ==> idx[k] < idx[l])
  }

  /** Growing `all` at the end keeps an embedding. */
  lemma EmbedsInLonger(idx: seq<nat>, sub: seq<EventView>, all: seq<EventView>, x: EventView)
    requires Embeds(idx, sub, all)
    ensures Embeds(idx, sub, all + [x])
  {
    forall k | 0 <= k < |idx| ensures idx[k] < |all + [x]| && sub[k] == (all + [x])[idx[k]] {
      assert (all + [x])[idx[k]] == all[idx[k]];
    }
  }

  /** Appending the same element to both sides extends an embedding by the new last position. */
  lemma EmbedsAppend(idx: seq<nat>, sub: seq<EventView>, all: seq<EventView>, x: EventView)
    requires Embeds(idx, sub, all)
    ensures Embeds(idx + [|all|], sub + [x], all + [x])
  {
    EmbedsInLonger(idx, sub, all, x);
    var idx', sub', all' := idx + [|all|], sub + [x], all + [x];
    forall k | 0 <= k < |idx'| ensures idx'[k] < |all'| && sub'[k] == all'[idx'[k]] {
      if k < |idx| {
        assert idx'[k] == idx[k] && sub'[k] == sub[k];
      }
    }
    forall k, l | 0 <= k < l < |idx'| ensures idx'[k] < idx'[l] {
      if l < |idx| {
        assert idx'[k] == idx[k] && idx'[l] == idx[l];
      } else {
        assert idx'[k] == idx[k];
      }
    }
  }

  /** The positions of `all` holding the user's events, in increasing order. */
  function CreatedPositions(all: seq<EventView>, user: Option<User>): (idx: seq<nat>)
    ensures forall i :: i in idx <==> 0 <= i < |all| && CreatedBy(user, all[i])
  {
    if all == [] then []
    else
      var n := |all| - 1;
      var pre := CreatedPositions(all[..n], user);
      assert forall i :: 0 <= i < n ==> all[..n][i] == all[i];
      if CreatedBy(user, all[n]) then pre + [n] else pre
  }

  /** The filter keeps the original order: the user's events are picked out
      of `all` at increasing positions, and every position holding one of
      them is picked. */
  lemma {:induction false} CreatedEventsKeepOrder(all: seq<EventView>, user: Option<User>)
    ensures Embeds(CreatedPositions(all, user), CreatedEvents(all, user), all)
    decreases |all|
  {
    if all != [] {
      var n := |all| - 1;
      var pre := all[..n];
      var last := all[n];
      assert all == pre + [last];
      CreatedEventsKeepOrder(pre, user);
      if CreatedBy(user, last) {
        EmbedsAppend(CreatedPositions(pre, user), CreatedEvents(pre, user), pre, last);
      } else {
        EmbedsInLonger(CreatedPositions(pre, user), CreatedEvents(pre, user), pre, last);
      }
    }
  }

  /** A subsequence of a date-ordered listing with distinct ids is again one. */
  lemma EmbeddedKeepsListingOrder(idx: seq<nat>, sub: seq<EventView>, all: seq<EventView>)
    requires Embeds(idx, sub, all)
    ensures Listings.SortedByDate(all) ==> Listings.SortedByDate(sub)
    ensures Listings.DistinctIds(all) ==> Listings.DistinctIds(sub)
  {
    forall k, l | 0 <= k < l < |sub| ensures sub[k] == all[idx[k]] && sub[l] == all[idx[l]] && idx[k] < idx[l] {
    }
  }

  /** Fed a date-ordered listing with distinct ids, the created tab is date-ordered with distinct ids. */
  lemma CreatedEventsOrdered(all: seq<EventView>, user: Option<User>)
    ensures Listings.SortedByDate(all) ==> Listings.SortedByDate(CreatedEvents(all, user))
    ensures Listings.DistinctIds(all) ==> Listings.DistinctIds(CreatedEvents(all, user))
  {
    CreatedEventsKeepOrder(all, user);
    EmbeddedKeepsListingOrder(CreatedPositions(all, user), CreatedEvents(all, user), all);
  }

  /** The outcome of `fetchMyEvents`: the page and the failure notice, if any. */
  datatype Fetched = Fetched(page: Page, allRequested: bool, notice: Option<Notice>)

  /** `fetchMyEvents`: the registered list is stored as soon as it arrives;
      the all-events call runs only after it, and its failure leaves the
      created list as it was. Loading ends whatever happens. */
  function FetchMyEvents(p: Page, user: Option<User>, registered: Reply<seq<EventView>>,
                         all: Reply<seq<EventView>>): (f: Fetched)
    ensures !f.page.loading && f.page.tab == p.tab
    ensures f.allRequested <==> registered.Ok?
    ensures registered.Err? ==> f.page.registered == p.registered && f.page.created == p.created
    ensures registered.Ok? ==> f.page.registered == registered.data
    ensures registered.Ok? && all.Ok? ==> f.page.created == CreatedEvents(all.data, user)
    ensures registered.Ok? && all.Err? ==> f.page.created == p.created
    ensures f.notice.None? <==> registered.Ok? && all.Ok?
    ensures f.notice.Some? ==> f.notice.value == Notice(Error, LoadFailure)
  {
    match registered
    case Err(_) => Fetched(p.(loading := false), false, Some(Notice(Error, LoadFailure)))
    case Ok(regs) =>
      match all
      case Err(_) => Fetched(p.(registered := regs, loading := false), true, Some(Notice(Error, LoadFailure)))
      case Ok(events) => Fetched(p.(registered := regs, created := CreatedEvents(events, user), loading := false), true, None)
  }

  /** The effect that runs when `user` changes: a fetch when someone is
      logged in, and otherwise no request and no change at all. */
  function OnUser(p: Page, user: Option<User>, registered: Reply<seq<EventView>>,
                  all: Reply<seq<EventView>>): (f: Fetched)
    ensures !ShouldFetch(user) ==> f == Fetched(p, false, None)
    ensures ShouldFetch(user) ==> f == FetchMyEvents(p, user, registered, all)
  {
    if ShouldFetch(user) then FetchMyEvents(p, user, registered, all) else Fetched(p, false, None)
  }

  /** Nobody logged in: the freshly mounted page never leaves its loading spinner. */
  lemma LoggedOutPageKeepsLoading(registered: Reply<seq<EventView>>, all: Reply<seq<EventView>>)
    ensures OnUser(Mounted, None, registered, all).page.loading
  {
  }

  /** The outcome of `handleUnregister`: the page, whether it refetched, the
      unregister notice, and the notice of a failed refetch, if any. */
  datatype Unregistered = Unregistered(page: Page, refetched: bool, notice: Notice, refetchNotice: Option<Notice>)

  /** `handleUnregister`: success refetches the page; failure shows the
      server's message or "Failed to unregister" and refetches nothing. */
  function HandleUnregister(p: Page, user: Option<User>, reply: Reply<()>,
                            registered: Reply<seq<EventView>>, all: Reply<seq<EventView>>): (u: Unregistered)
    ensures u.refetched <==> reply.Ok?
    ensures reply.Ok? ==> u.page == FetchMyEvents(p, user, registered, all).page
                          && u.notice == Notice(Success, "Successfully unregistered from event")
                          && u.refetchNotice == FetchMyEvents(p, user, registered, all).notice
    ensures reply.Err? ==> u.page == p && u.notice == Notice(Error, MessageOr(reply.error, "Failed to unregister"))
                           && u.refetchNotice.None?
  {
    match reply
    case Ok(_) =>
      var f := FetchMyEvents(p, user, registered, all);
      Unregistered(f.page, true, Notice(Success, "Successfully unregistered from event"), f.notice)
    case Err(e) => Unregistered(p, false, Notice(Error, MessageOr(e, "Failed to unregister")), None)
  }

  /** The page's own card shows Unregister only on the registered tab, and
      only for events strictly after now. It is the per-card part of
      `VisibleCards`, whose contract states it. */
  predicate UnregisterVisible(tab: nat, e: EventView, now: int) {
    tab == 0 && e.eventDate > now
  }

  /** The page's own status chip: "Upcoming" only for events strictly after now. */
  function StatusChip(e: EventView, now: int): (chip: string)
    ensures chip == "Upcoming" <==> e.eventDate > now
    ensures chip == "Past Event" <==> e.eventDate <= now
  {
    if e.eventDate > now then "Upcoming" else "Past Event"
  }

  /** The cards on screen: the active tab's events, each with whether it offers Unregister. */
  function VisibleCards(p: Page, now: int): (cards: seq<(EventView, bool)>)
    ensures p.tab == 0 ==> |cards| == |p.registered| && forall i :: 0 <= i < |cards| ==> cards[i].0 == p.registered[i]
    ensures p.tab == 1 ==> |cards| == |p.created| && forall i :: 0 <= i < |cards| ==> cards[i].0 == p.created[i]
    ensures p.tab > 1 ==> cards == []
    ensures forall i :: 0 <= i < |cards| ==> (cards[i].1 <==> p.tab == 0 && cards[i].0.eventDate > now)
    ensures forall i :: 0 <= i < |cards| && cards[i].1 ==> cards[i].0 in p.registered
  {
    if p.tab == 0 then seq(|p.registered|, i requires 0 <= i < |p.registered| => (p.registered[i], UnregisterVisible(0, p.registered[i], now)))
    else if p.tab == 1 then seq(|p.created|, i requires 0 <= i < |p.created| => (p.created[i], false))
    else []
  }

}
