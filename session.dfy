/** The cooking session: the persisted session record, the timers armed for
    the upcoming events of a derived timeline, and the double-fire guard.
    A timer is the pair the code hands to `setTimeout`: the event its
    callback fires and the delay in milliseconds. */
module Session {
  import opened Types
  import opened Lists
  import opened Derivation

  /** The record `scheduleSession` stores for reload recovery. */
  datatype SessionRecord = SessionRecord(
    mealId: Id,
    startedAt: int,
    serveWhen: int,
    armedAt: int,
    firedEventIds: seq<Id>)

  datatype Timer = Timer(event: Event, delay: int)

  /** The timers the arming loop pushes for `events` at instant `now`: one
      per event not yet in the past, with delay `when - now`, in event order. */
  function Pending(events: seq<Event>, now: int): (r: seq<Timer>)
    ensures |r| <= |events|
    ensures forall k :: 0 <= k < |r| ==> r[k].delay >= 0 && r[k].event.when == now + r[k].delay
    ensures forall k :: 0 <= k < |r| ==> r[k].event in events
  {
    if events == [] then []
    else
      var ev := events[|events| - 1];
      Pending(events[..|events| - 1], now) + (if ev.when < now then [] else [Timer(ev, ev.when - now)])
  }

  /** The events the timers will fire. */
  function TimerEvents(ts: seq<Timer>): (r: seq<Event>)
    ensures |r| == |ts|
    ensures forall k :: 0 <= k < |ts| ==> r[k] == ts[k].event
  {
    seq(|ts|, k requires 0 <= k < |ts| => ts[k].event)
  }

  /** The loop shared by `scheduleSession` and `recoverSessionIfAny`: skip
      the events already past, arm a timer for each of the others. */
  method ArmTimers(events: seq<Event>, now: int) returns (timers: seq<Timer>)
    ensures timers == Pending(events, now)
  {
    timers := [];
    var i := 0;
    while i < |events|
      invariant 0 <= i <= |events|
      invariant timers == Pending(events[..i], now)
    {
      var ev := events[i];
      assert events[..i + 1][..i] == events[..i];
      if ev.when >= now {
        var delay := ev.when - now;
        timers := timers + [Timer(ev, delay)];
      }
      i := i + 1;
    }
    assert events[..i] == events;
  }

  /** The armed timers fire exactly the events the "upcoming" view shows,
      in the same order. */
  lemma {:induction false} PendingIsUpcoming(events: seq<Event>, now: int)
    ensures TimerEvents(Pending(events, now)) == Visible(events, AllTypes, Upcoming, now)
    decreases |events|
  {
    if events != [] {
      var prior := events[..|events| - 1];
      var ev := events[|events| - 1];
      PendingIsUpcoming(prior, now);
      var tail := if ev.when < now then [] else [Timer(ev, ev.when - now)];
      assert TimerEvents(Pending(prior, now) + tail) == TimerEvents(Pending(prior, now)) + TimerEvents(tail);
      assert Shown(ev, AllTypes, Upcoming, now) <==> ev.when >= now;
    }
  }

  /** Each event at or after `now` gets as many timers as it occurs in the
      timeline, and an event in the past gets none. */
  lemma PendingOnePerUpcoming(events: seq<Event>, now: int)
    ensures forall e :: multiset(TimerEvents(Pending(events, now)))[e]
                     == if e.when >= now then multiset(events)[e] else 0
  {
    PendingIsUpcoming(events, now);
    forall e
      ensures multiset(TimerEvents(Pending(events, now)))[e] == if e.when >= now then multiset(events)[e] else 0
    {
      assert Shown(e, AllTypes, Upcoming, now) <==> e.when >= now;
    }
  }

  /** For a derived timeline, whose events are pairwise distinct, every
      upcoming event gets exactly one timer and nothing else is armed. */
  lemma ArmedOncePerUpcomingEvent(m: Meal, clock: LocalClock, id: Id, now: int)
    ensures var t := Timeline(m, clock, id);
      forall e :: multiset(TimerEvents(Pending(t, now)))[e] == (if e in t && e.when >= now then 1 else 0)
  {
    var t := Timeline(m, clock, id);
    TimelineIds(m, clock, id);
    PendingOnePerUpcoming(t, now);
    forall e
      ensures multiset(TimerEvents(Pending(t, now)))[e] == (if e in t && e.when >= now then 1 else 0)
    {
      DistinctMultiplicity(t, e);
    }
  }

  // ---------- The double-fire guard ----------

  /** What `fireEvent` leaves in the store for an event with id `evId`:
      nothing without a session; the record unchanged when the id is
      already recorded; otherwise the record with the id appended. */
  function Fire(s: Option<SessionRecord>, evId: Id): (r: Option<SessionRecord>)
    ensures r.None? <==> s.None?
    ensures s.Some? && evId in s.value.firedEventIds ==> r == s
    ensures r.Some? ==> evId in r.value.firedEventIds
    ensures r.Some? ==> r.value.(firedEventIds := []) == s.value.(firedEventIds := [])
  {
    match s
    case None => None
    case Some(rec) =>
      if evId in rec.firedEventIds then s
      else Some(rec.(firedEventIds := rec.firedEventIds + [evId]))
  }

  /** Whether the alert is raised: only the duplicate-id early return suppresses it. */
  function RaisesAlert(s: Option<SessionRecord>, evId: Id): (b: bool)
    ensures s.None? ==> b
    ensures s.Some? ==> (b <==> evId !in s.value.firedEventIds)
  {
    !(s.Some? && evId in s.value.firedEventIds)
  }

  /** A fresh id is recorded exactly once and the ids recorded before stay
      in place; any other id keeps its count. */
  lemma FireRecordsOnce(s: Option<SessionRecord>, evId: Id)
    requires s.Some? && evId !in s.value.firedEventIds
    ensures var f := Fire(s, evId).value.firedEventIds;
      && multiset(f)[evId] == 1
      && f[..|s.value.firedEventIds|] == s.value.firedEventIds
      && forall x :: x != evId ==> multiset(f)[x] == multiset(s.value.firedEventIds)[x]
  {
    var before: seq<Id> := s.value.firedEventIds;
    assert multiset(before)[evId] == 0;
    assert (before + [evId])[..|before|] == before;
  }

  /** Firing the same event twice has the effect of firing it once, and the
      second time raises no alert while a session exists. */
  lemma FireTwice(s: Option<SessionRecord>, evId: Id)
    ensures Fire(Fire(s, evId), evId) == Fire(s, evId)
    ensures s.Some? ==> !RaisesAlert(Fire(s, evId), evId)
  {
  }

  // ---------- Recovery ----------

  /** Recovery re-derives the timeline with ids drawn afresh from the
      supply, so no re-armed timer carries an id recorded before the reload:
      the fired-set guard cannot suppress a re-fire of an event that was
      already alerted. */
  lemma RecoveryGuardNeverMatches(m: Meal, clock: LocalClock, id: Id, now: int, fired: seq<Id>)
    requires forall k :: 0 <= k < |fired| ==> fired[k] < id
    ensures forall t :: t in Pending(Timeline(m, clock, id), now) ==> t.event.id !in fired
  {
    var evs := Timeline(m, clock, id);
    TimelineIds(m, clock, id);
    PendingOnePerUpcoming(evs, now);
    forall t | t in Pending(evs, now)
      ensures t.event.id !in fired
    {
      var ts := Pending(evs, now);
      var k :| 0 <= k < |ts| && ts[k] == t;
      assert t.event in multiset(TimerEvents(ts));
      assert t.event in evs;
    }
  }
}
