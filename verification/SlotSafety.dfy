/** How the slot engine's filters relate to the conflict detector, to the stored calendar and to
    the preferred hours. */
module SlotSafety {
  import opened Options
  import opened LocalClock
  import opened Conflicts
  import opened SlotScoring
  import opened SlotEngine

  function AsEvent(slot: TimeSlot, id: nat): Event
  {
    Event(id, slot.start, slot.end, false, Confirmed)
  }

  // ---------------------------------------------- agreement with the detector

  /** Against one event, the slot test is the detector's definition of a hard or soft pair. */
  lemma BlocksIsReport(slot: TimeSlot, id: nat, e: Event, buffer: int)
    requires slot.start < slot.end && Positive(e) && buffer >= 0
    ensures Blocks(slot, e, buffer) <==> e.status != Cancelled && KindOf(AsEvent(slot, id), e, buffer).Some?
  {
  }

  lemma {:induction false} AgainstPositive(a: Event, s: seq<Event>, k: nat, buffer: int)
    requires k < |s| && KindOf(a, s[k], buffer).Some?
    ensures Against(a, s, Unordered(a.id, s[k].id, KindOf(a, s[k], buffer).value), buffer) > 0
  {
    if k < |s| - 1 {
      AgainstPositive(a, s[..|s| - 1], k, buffer);
    }
  }

  lemma {:induction false} ActiveAppend(events: seq<Event>, e: Event, n: nat)
    requires n <= |events|
    ensures ActivePrefix(events + [e], n) == ActivePrefix(events, n)
  {
    if n > 0 {
      ActiveAppend(events, e, n - 1);
    }
  }

  /** Adding the slot as a timed event adds exactly its own reports. */
  lemma AddedSlotReports(slot: TimeSlot, id: nat, events: seq<Event>, p: Pair, buffer: int)
    ensures AllPairs(Active(events + [AsEvent(slot, id)]), p, buffer) ==
      AllPairs(Active(events), p, buffer) + Against(AsEvent(slot, id), Active(events), p, buffer)
  {
    var e, s := AsEvent(slot, id), Active(events);
    ActiveAppend(events, e, |events|);
    PullOut(s, e, [], p, buffer);
    assert s + [e] + [] == Active(events + [e]) && s + [] == s;
  }

  lemma ConflictingIsReported(slot: TimeSlot, id: nat, events: seq<Event>, buffer: int) returns (p: Pair)
    requires slot.start < slot.end && buffer >= 0 && PositiveDurations(events)
    requires Conflicting(slot, events, buffer)
    ensures Against(AsEvent(slot, id), Active(events), p, buffer) > 0
  {
    var a, s := AsEvent(slot, id), Active(events);
    ActiveMembers(events, |events|);
    assert events[..|events|] == events;
    var i :| 0 <= i < |events| && Blocks(slot, events[i], buffer);
    assert events[i] in s;
    var k :| 0 <= k < |s| && s[k] == events[i];
    BlocksIsReport(slot, id, events[i], buffer);
    AgainstPositive(a, s, k, buffer);
    p := Unordered(a.id, s[k].id, KindOf(a, s[k], buffer).value);
  }

  lemma ReportedIsConflicting(slot: TimeSlot, id: nat, events: seq<Event>, p: Pair, buffer: int)
    requires slot.start < slot.end && buffer >= 0 && PositiveDurations(events)
    requires Against(AsEvent(slot, id), Active(events), p, buffer) > 0
    ensures Conflicting(slot, events, buffer)
  {
    var a, s := AsEvent(slot, id), Active(events);
    ActiveMembers(events, |events|);
    assert events[..|events|] == events;
    var k := AgainstWitness(a, s, p, buffer);
    assert s[k] in events;
    var i :| 0 <= i < |events| && events[i] == s[k];
    BlocksIsReport(slot, id, events[i], buffer);
    assert Blocks(slot, events[i], buffer);
  }

  /** For a nonnegative buffer and positive durations, the engine rejects a slot iff adding it as a
      timed event makes the detector report more pairs than before, in whatever orders the two
      sorts happen to leave the events. */
  lemma SlotTestAgreesWithDetector(slot: TimeSlot, id: nat, events: seq<Event>, prefs: Preferences,
                                   before: seq<Event>, after: seq<Event>)
    requires slot.start < slot.end && Buffer(prefs) >= 0 && PositiveDurations(events)
    requires multiset(before) == multiset(Active(events)) && ByStart(before)
    requires multiset(after) == multiset(Active(events + [AsEvent(slot, id)])) && ByStart(after)
    ensures Conflicting(slot, events, Buffer(prefs)) <==>
      exists p :: Reported(Scan(after, prefs), p) > Reported(Scan(before, prefs), p)
  {
    hide Scan, Blocks;
    var e := AsEvent(slot, id);
    ReportsAllPairs(events, before, prefs);
    assert PositiveDurations(events + [e]);
    ReportsAllPairs(events + [e], after, prefs);
    forall p ensures Reported(Scan(after, prefs), p) ==
      Reported(Scan(before, prefs), p) + Against(e, Active(events), p, Buffer(prefs))
    {
      AddedSlotReports(slot, id, events, p, Buffer(prefs));
    }
    if Conflicting(slot, events, Buffer(prefs)) {
      var p := ConflictingIsReported(slot, id, events, Buffer(prefs));
      assert Reported(Scan(after, prefs), p) > Reported(Scan(before, prefs), p);
    } else {
      forall p ensures Reported(Scan(after, prefs), p) <= Reported(Scan(before, prefs), p) {
        if Against(e, Active(events), p, Buffer(prefs)) > 0 {
          ReportedIsConflicting(slot, id, events, p, Buffer(prefs));
        }
      }
    }
  }

  /** With any buffer, the two tests part exactly where a negative buffer meets a nested pair: the
      later-starting event begins early enough, but ends too soon after the earlier one begins. */
  lemma TestsPartOnlyOnNestedPairs(slot: TimeSlot, id: nat, e: Event, buffer: int)
    requires slot.start < slot.end && Positive(e) && !e.isAllDay && e.status != Cancelled
    ensures var s := AsEvent(slot, id);
      var (a, b) := if s.start <= e.start then (s, e) else (e, s);
      (Blocks(slot, e, buffer) <==> PairConflict(a, b, buffer) != []) <==>
      !(b.start < a.end + buffer && a.start >= b.end + buffer)
  {
  }

  // --------------------------------------------- safety on the whole calendar

  lemma {:induction false} InRangeMembers(store: seq<Event>, start: int, end: int)
    ensures forall e :: e in EventsInRange(store, start, end) <==>
      e in store && e.start < end && e.end > start && e.status != Cancelled
  {
    if store != [] {
      InRangeMembers(store[1..], start, end);
    }
  }

  predicate OutsideRange(e: Event, g: Grid)
  {
    e.end <= g.start || e.start >= g.end
  }

  lemma ClearOfLoaded(slot: TimeSlot, g: Grid, prefs: Preferences, store: seq<Event>, i: nat)
    requires Eligible(slot, prefs, EventsInRange(store, g.start, g.end))
    requires i < |store| && Blocks(slot, store[i], Buffer(prefs))
    ensures OutsideRange(store[i], g)
  {
    InRangeMembers(store, g.start, g.end);
    assert store[i] in store;
  }

  /** An eligible slot keeps the buffer to every stored event iff it keeps it to the events lying
      wholly outside the search range, which the query does not load. */
  lemma OnlyUnloadedCanBlock(slot: TimeSlot, g: Grid, prefs: Preferences, store: seq<Event>)
    requires Eligible(slot, prefs, EventsInRange(store, g.start, g.end))
    ensures !Conflicting(slot, store, Buffer(prefs)) <==>
      forall i :: 0 <= i < |store| && OutsideRange(store[i], g) ==> !Blocks(slot, store[i], Buffer(prefs))
  {
    if Conflicting(slot, store, Buffer(prefs)) {
      var i :| 0 <= i < |store| && Blocks(slot, store[i], Buffer(prefs));
      ClearOfLoaded(slot, g, prefs, store, i);
    }
  }

  /** Being eligible in the search range guarantees the buffer to the whole stored calendar. */
  ghost predicate BufferGuaranteed(slot: TimeSlot, g: Grid, prefs: Preferences)
  {
    forall store :: PositiveDurations(store) && Eligible(slot, prefs, EventsInRange(store, g.start, g.end)) ==>
      !Conflicting(slot, store, Buffer(prefs))
  }

  /** The slot lies at least a buffer away from both ends of the search range. */
  predicate HasMargin(slot: TimeSlot, g: Grid, buffer: int)
  {
    g.start + buffer <= slot.start && slot.end + buffer <= g.end
  }

  lemma UnloadedWitness(slot: TimeSlot, g: Grid, prefs: Preferences, e: Event)
    requires !IsNoMeetingDay(slot.start, prefs) && PassesHours(slot, prefs)
    requires OutsideRange(e, g) && Blocks(slot, e, Buffer(prefs)) && Positive(e)
    ensures !BufferGuaranteed(slot, g, prefs)
  {
    var store := [e];
    assert store[1..] == [];
    assert EventsInRange(store, g.start, g.end) == [];
    assert Blocks(slot, store[0], Buffer(prefs));
  }

  /** Whether a slot that passes the day and hour filters is safe from every stored calendar can be
      read off the range: iff it keeps the buffer to both of its ends. */
  lemma BufferKeptExactly(slot: TimeSlot, g: Grid, prefs: Preferences)
    requires g.start <= slot.start <= slot.end <= g.end
    requires !IsNoMeetingDay(slot.start, prefs) && PassesHours(slot, prefs)
    ensures BufferGuaranteed(slot, g, prefs) <==> HasMargin(slot, g, Buffer(prefs))
  {
    hide PassesHours, Buffer;
    if HasMargin(slot, g, Buffer(prefs)) {
      forall store | PositiveDurations(store) && Eligible(slot, prefs, EventsInRange(store, g.start, g.end))
        ensures !Conflicting(slot, store, Buffer(prefs))
      {
        OnlyUnloadedCanBlock(slot, g, prefs, store);
      }
    } else if slot.start < g.start + Buffer(prefs) {
      UnloadedWitness(slot, g, prefs, Event(0, g.start - 1, g.start, false, Confirmed));
    } else {
      UnloadedWitness(slot, g, prefs, Event(0, g.end, g.end + 1, false, Confirmed));
    }
  }

  /** In any case an eligible slot inside the range overlaps no stored timed event. */
  lemma NoStoredOverlap(slot: TimeSlot, id: nat, g: Grid, prefs: Preferences, store: seq<Event>, i: nat)
    requires Eligible(slot, prefs, EventsInRange(store, g.start, g.end)) && Buffer(prefs) >= 0
    requires g.start <= slot.start < slot.end <= g.end && i < |store|
    ensures store[i].status != Cancelled && !store[i].isAllDay ==> !Intersects(AsEvent(slot, id), store[i])
  {
    var e := store[i];
    if e.status != Cancelled && !e.isAllDay && Intersects(AsEvent(slot, id), e) {
      assert Blocks(slot, e, Buffer(prefs));
      ClearOfLoaded(slot, g, prefs, store, i);
    }
  }

  /** The buffer really can be lost: a meeting that ends when the search range starts is not
      loaded, so the very next slot is eligible although the detector calls the pair a soft conflict. */
  lemma BufferLostAtTheEdge(g: Grid, e: Event, id: nat, prefs: Preferences)
    requires e.end == g.start && e.start < e.end && !e.isAllDay && e.status == Confirmed
    requires 0 < g.duration && Buffer(prefs) > 0
    requires !IsNoMeetingDay(g.start, prefs) && PassesHours(SlotAt(g, 0), prefs)
    ensures Eligible(SlotAt(g, 0), prefs, EventsInRange([e], g.start, g.end))
    ensures KindOf(AsEvent(SlotAt(g, 0), id), e, Buffer(prefs)) == Some(IsSoft)
  {
    hide PassesHours;
    assert [e][1..] == [];
    assert EventsInRange([e], g.start, g.end) == [];
  }

  /** The engine and the detector agree on no-meeting days. */
  lemma NoMeetingDayAgrees(slot: TimeSlot, id: nat, prefs: Preferences)
    ensures IsNoMeetingDay(slot.start, prefs) <==> exists d :: NoMeetingDay(d) in Violations(AsEvent(slot, id), prefs)
    ensures IsNoMeetingDay(slot.start, prefs) <==> (slot.start / 86_400_000_000_000 + 4) % 7 in prefs.noMeetingDays
  {
    NoMeetingDayExact(AsEvent(slot, id), prefs);
  }

  // --------------------------------------------------------- preferred hours

  /** A slot that passes the hour filter lies inside the preferred hours of the day it starts on
      (to the minute) iff it does not run past midnight: the filter looks at hours of day only. The one
      exception is a preferred end of 24 or later, which lets the slot run on to that instant. */
  lemma HourFilterExact(slot: TimeSlot, prefs: Preferences)
    requires slot.start <= slot.end && PassesHours(slot, prefs)
    ensures var day := DayOf(slot.start);
      (At(day, prefs.startHour) <= slot.start && slot.end < At(day, prefs.endHour) + MINUTE) <==>
      DayOf(slot.end) == day || (prefs.endHour >= 24 && slot.end < At(day, prefs.endHour) + MINUTE)
  {
  }

  /** On one day the filter is exact to the minute, whatever the preferred hours. */
  lemma HourFilterOnOneDay(slot: TimeSlot, prefs: Preferences)
    requires slot.start <= slot.end && DayOf(slot.start) == DayOf(slot.end)
    ensures PassesHours(slot, prefs) <==>
      At(DayOf(slot.start), prefs.startHour) <= slot.start && slot.end < At(DayOf(slot.start), prefs.endHour) + MINUTE
  {
  }

  /** The hour from 23:00 to midnight passes the filter for preferred hours 09:00 to 18:00. */
  lemma MidnightSlotPasses(day: int, prefs: Preferences)
    requires prefs.startHour == 9 && prefs.endHour == 18
    ensures PassesHours(TimeSlot(At(day, 23), At(day, 24)), prefs)
  {
    assert TimeOfDay(At(day, 23)) == 23 * HOUR;
    assert At(day, 24) == At(day + 1, 0) && TimeOfDay(At(day + 1, 0)) == 0;
  }
}
