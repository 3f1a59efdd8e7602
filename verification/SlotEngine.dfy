/** The meeting-slot suggestion engine: walk a grid, filter, score, rank, keep the best. */
module SlotEngine {
  import opened Options
  import opened LocalClock
  import opened Sorting
  import opened Conflicts
  import opened SlotScoring

  datatype Config = Config(slotIncrementMinutes: int, maxSlotSuggestions: int)

  datatype SlotRequest = SlotRequest(
    attendees: seq<string>, durationMinutes: int, preferredStart: Option<int>, preferredEnd: Option<int>,
    meetingType: MeetingType)

  // ------------------------------------------------------------ the filters

  predicate IsNoMeetingDay(t: int, prefs: Preferences)
  {
    Weekday(t) in prefs.noMeetingDays
  }

  /** The buffered overlap test against one event. */
  predicate Blocks(slot: TimeSlot, e: Event, buffer: int)
  {
    e.status != Cancelled && !e.isAllDay && slot.start < e.end + buffer && slot.end > e.start - buffer
  }

  ghost predicate Conflicting(slot: TimeSlot, events: seq<Event>, buffer: int)
  {
    exists i :: 0 <= i < |events| && Blocks(slot, events[i], buffer)
  }

  method HasConflict(slot: TimeSlot, events: seq<Event>, prefs: Preferences) returns (found: bool)
    ensures found == Conflicting(slot, events, Buffer(prefs))
  {
    var buffer := prefs.bufferMinutes * MINUTE;
    for i := 0 to |events|
      invariant forall k :: 0 <= k < i ==> !Blocks(slot, events[k], buffer)
    {
      var e := events[i];
      if e.status == Cancelled || e.isAllDay {
        continue;
      }
      if slot.start < e.end + buffer && slot.end > e.start - buffer {
        assert Blocks(slot, events[i], buffer);
        return true;
      }
    }
    return false;
  }

  method NoMeetingDay(t: int, prefs: Preferences) returns (found: bool)
    ensures found == IsNoMeetingDay(t, prefs)
  {
    var weekday := Weekday(t);
    for i := 0 to |prefs.noMeetingDays|
      invariant weekday !in prefs.noMeetingDays[..i]
    {
      if weekday == prefs.noMeetingDays[i] {
        return true;
      }
    }
    assert prefs.noMeetingDays[..|prefs.noMeetingDays|] == prefs.noMeetingDays;
    return false;
  }

  ghost predicate Eligible(slot: TimeSlot, prefs: Preferences, events: seq<Event>)
  {
    !IsNoMeetingDay(slot.start, prefs) && PassesHours(slot, prefs) && !Conflicting(slot, events, Buffer(prefs))
  }

  // --------------------------------------------------------------- the grid

  datatype Grid = Grid(start: int, end: int, increment: int, duration: int)

  /** The k-th slot of the walk. */
  function SlotAt(g: Grid, k: nat): TimeSlot
  {
    TimeSlot(g.start + k * g.increment, g.start + k * g.increment + g.duration)
  }

  predicate Fits(g: Grid, k: nat)
  {
    SlotAt(g, k).end <= g.end
  }

  ghost predicate Terminates(g: Grid)
  {
    exists k: nat :: !Fits(g, k)
  }

  /** The walk ends iff the increment is positive or the first slot already does not fit. */
  lemma WalkTerminatesExactly(g: Grid)
    ensures Terminates(g) <==> g.increment > 0 || g.start + g.duration > g.end
  {
    if g.increment > 0 {
      var k: nat := if g.end - g.start - g.duration >= 0 then g.end - g.start - g.duration + 1 else 0;
      assert k * g.increment >= k;
      assert !Fits(g, k);
    } else if g.start + g.duration > g.end {
      assert !Fits(g, 0);
    } else {
      forall k: nat ensures Fits(g, k) {
        assert k * g.increment <= 0;
      }
    }
  }

  /** How many slots the walk visits, if it ends. */
  function Steps(g: Grid): nat
  {
    if g.start + g.duration > g.end || g.increment <= 0 then 0
    else (g.end - g.duration - g.start) / g.increment + 1
  }

  /** The slots visited are the first ones that fit; with a positive increment they are all that fit. */
  lemma StepsExactly(g: Grid)
    requires g.increment > 0 || g.start + g.duration > g.end
    ensures !Fits(g, Steps(g)) && forall k: nat :: k < Steps(g) ==> Fits(g, k)
    ensures g.increment > 0 ==> forall k: nat :: Fits(g, k) ==> k < Steps(g)
  {
    if g.increment > 0 {
      forall k: nat ensures Fits(g, k) <==> k < Steps(g) {
        WithinRoom(g.end - g.duration - g.start, g.increment, k);
      }
    }
  }

  lemma WithinRoom(room: int, increment: int, k: nat)
    requires increment > 0
    ensures k * increment <= room <==> room >= 0 && k < room / increment + 1
  {
    var q := room / increment;
    assert q * increment <= room < q * increment + increment;
    if k <= q {
      assert k * increment <= q * increment;
    } else {
      assert (q + 1) * increment <= k * increment;
    }
  }

  /** The eligible slots among the first n of the walk. */
  ghost function Candidates(g: Grid, prefs: Preferences, events: seq<Event>, n: nat): seq<TimeSlot>
  {
    if n == 0 then []
    else
      Candidates(g, prefs, events, n - 1)
      + if Eligible(SlotAt(g, n - 1), prefs, events) then [SlotAt(g, n - 1)] else []
  }

  /** The candidate loop visits the walk up to the first slot that does not fit. */
  method GenerateCandidates(g: Grid, prefs: Preferences, events: seq<Event>)
      returns (candidates: seq<TimeSlot>)
    requires g.increment > 0 || g.start + g.duration > g.end
    ensures candidates == Candidates(g, prefs, events, Steps(g))
  {
    candidates := [];
    ghost var steps: nat := 0;
    var t := g.start;
    while t + g.duration <= g.end
      invariant t == SlotAt(g, steps).start
      invariant candidates == Candidates(g, prefs, events, steps)
      invariant forall k: nat :: k < steps ==> Fits(g, k)
      decreases g.end - g.duration - t
    {
      var slot := TimeSlot(t, t + g.duration);
      assert slot == SlotAt(g, steps);
      assert (steps + 1) * g.increment == steps * g.increment + g.increment;
      t := t + g.increment;
      steps := steps + 1;
      var noMeeting := NoMeetingDay(slot.start, prefs);
      if noMeeting {
        continue;
      }
      var hour, endHour := HourOf(slot.start), HourOf(slot.end);
      if MinuteOf(slot.end) > 0 {
        endHour := endHour + 1;
      }
      if hour < prefs.startHour || endHour > prefs.endHour {
        continue;
      }
      var conflict := HasConflict(slot, events, prefs);
      if conflict {
        continue;
      }
      candidates := candidates + [slot];
    }
    assert !Fits(g, steps);
    StepsExactly(g);
    assert steps == Steps(g);
  }

  /** The candidates are the eligible slots of the walk, and nothing else. */
  lemma {:induction false} CandidatesExactly(g: Grid, prefs: Preferences, events: seq<Event>, n: nat, slot: TimeSlot)
    ensures slot in Candidates(g, prefs, events, n) <==>
      exists k: nat :: k < n && SlotAt(g, k) == slot && Eligible(slot, prefs, events)
  {
    if n > 0 {
      CandidatesExactly(g, prefs, events, n - 1, slot);
      if slot == SlotAt(g, n - 1) && Eligible(slot, prefs, events) {
        assert Candidates(g, prefs, events, n)[|Candidates(g, prefs, events, n)| - 1] == slot;
      }
    }
  }

  // ---------------------------------------------------------------- ranking

  predicate ScoresHigher(a: ScoredSlot, b: ScoredSlot)
  {
    a.score > b.score
  }

  ghost function ScoredAll(slots: seq<TimeSlot>, input: ScoreInput): seq<ScoredSlot>
  {
    seq(|slots|, i requires 0 <= i < |slots| => Scored(slots[i], input))
  }

  /** `chosen` is a best selection from `pool`, and `omitted` the rest: in falling score order, as many as asked for or as
      there are, and leaving out only what scores no higher than anything in it. */
  ghost predicate BestOf(pool: seq<ScoredSlot>, chosen: seq<ScoredSlot>, omitted: seq<ScoredSlot>, limit: nat)
  {
    && multiset(pool) == multiset(chosen) + multiset(omitted)
    && |chosen| == (if |pool| < limit then |pool| else limit)
    && (forall i, j :: 0 <= i < j < |chosen| ==> chosen[i].score >= chosen[j].score)
    && (forall i, j :: 0 <= i < |chosen| && 0 <= j < |omitted| ==> chosen[i].score >= omitted[j].score)
  }

  ghost predicate Best(pool: seq<ScoredSlot>, chosen: seq<ScoredSlot>, limit: nat)
  {
    exists omitted :: BestOf(pool, chosen, omitted, limit)
  }

  method ScoreAll(candidates: seq<TimeSlot>, input: ScoreInput) returns (scored: seq<ScoredSlot>)
    ensures scored == ScoredAll(candidates, input)
  {
    scored := [];
    for i := 0 to |candidates|
      invariant |scored| == i && forall k :: 0 <= k < i ==> scored[k] == Scored(candidates[k], input)
    {
      var s := ScoreSlot(candidates[i], input);
      scored := scored + [s];
    }
  }

  method TopN(scored: seq<ScoredSlot>, limit: nat) returns (top: seq<ScoredSlot>)
    ensures Best(scored, top, limit)
  {
    var ranked := SortSlice(scored, ScoresHigher);
    forall i, j | 0 <= i < j < |ranked| ensures ranked[i].score >= ranked[j].score {
      assert !ScoresHigher(ranked[j], ranked[i]);
    }
    assert |ranked| == |multiset(ranked)| == |multiset(scored)| == |scored|;
    var maxSlots := limit;
    if |ranked| < maxSlots {
      maxSlots := |ranked|;
    }
    top := [];
    for i := 0 to maxSlots
      invariant top == ranked[..i]
    {
      top := top + [ranked[i]];
    }
    ghost var omitted := ranked[maxSlots..];
    assert ranked == top + omitted;
    assert BestOf(scored, top, omitted, limit);
  }

  // ------------------------------------------------------------ suggestions

  /** The stored events the query hands over: those that overlap the search range. */
  function EventsInRange(store: seq<Event>, start: int, end: int): seq<Event>
  {
    if store == [] then []
    else
      var e := store[0];
      (if e.start < end && e.end > start && e.status != Cancelled then [e] else [])
      + EventsInRange(store[1..], start, end)
  }

  function GridOf(cfg: Config, req: SlotRequest, prefs: Preferences, today: int): Grid
  {
    var start := if req.preferredStart.Some? then req.preferredStart.value else today + prefs.startHour * HOUR;
    var end := if req.preferredEnd.Some? then req.preferredEnd.value else start + 7 * 24 * HOUR;
    var duration := if req.durationMinutes * MINUTE == 0 then 60 * MINUTE else req.durationMinutes * MINUTE;
    Grid(start, end, cfg.slotIncrementMinutes * MINUTE, duration)
  }

  /** The request carries no proposed times: the source's accessor always answers nil. */
  function InputOf(req: SlotRequest, prefs: Preferences): ScoreInput
  {
    ScoreInput(prefs, req.meetingType, [], req.attendees)
  }

  /** What there is to choose from: the scored candidates of a walk that ends. */
  ghost function Pool(g: Grid, prefs: Preferences, events: seq<Event>, input: ScoreInput): seq<ScoredSlot>
  {
    ScoredAll(Candidates(g, prefs, events, Steps(g)), input)
  }

  /** The engine. `today` is the instant the source gets by truncating the clock to 24 hours. */
  method SuggestSlots(cfg: Config, req: SlotRequest, prefs: Preferences, store: seq<Event>, today: int)
      returns (suggestions: seq<ScoredSlot>)
    requires cfg.maxSlotSuggestions >= 0
    requires Terminates(GridOf(cfg, req, prefs, today))
    ensures var g := GridOf(cfg, req, prefs, today);
      var events := EventsInRange(store, g.start, g.end);
      Best(Pool(g, prefs, events, InputOf(req, prefs)), suggestions, cfg.maxSlotSuggestions)
  {
    var start := if req.preferredStart.Some? then req.preferredStart.value else today + prefs.startHour * HOUR;
    var end := if req.preferredEnd.Some? then req.preferredEnd.value else start + 7 * 24 * HOUR;
    var events := EventsInRange(store, start, end);
    var duration := req.durationMinutes * MINUTE;
    if duration == 0 {
      duration := 60 * MINUTE;
    }
    var increment := cfg.slotIncrementMinutes * MINUTE;
    WalkTerminatesExactly(GridOf(cfg, req, prefs, today));
    var candidates := GenerateCandidates(Grid(start, end, increment, duration), prefs, events);
    var scored := ScoreAll(candidates, ScoreInput(prefs, req.meetingType, [], req.attendees));
    suggestions := TopN(scored, cfg.maxSlotSuggestions);
  }

  /** Every suggested slot lies on the grid inside the search range, passes all three filters, and
      carries its own score, which is between 0 and 1. */
  lemma SuggestionsAreSound(g: Grid, prefs: Preferences, events: seq<Event>, input: ScoreInput,
                            chosen: seq<ScoredSlot>, limit: nat, i: nat)
      returns (k: nat)
    requires g.increment > 0 && input.prefs == prefs
    requires Best(Pool(g, prefs, events, input), chosen, limit) && i < |chosen|
    ensures chosen[i] == Scored(SlotAt(g, k), input) && Eligible(SlotAt(g, k), prefs, events)
    ensures g.start <= SlotAt(g, k).start && SlotAt(g, k).end <= g.end
    ensures 0.0 <= chosen[i].score <= 1.0 && chosen[i].breakdown.businessHours == 1.0
  {
    hide Scored, Eligible;
    var c := Candidates(g, prefs, events, Steps(g));
    StepsExactly(g);
    var m := BehindChosen(Pool(g, prefs, events, input), chosen, limit, i);
    CandidatesExactly(g, prefs, events, Steps(g), c[m]);
    k :| k < Steps(g) && SlotAt(g, k) == c[m] && Eligible(c[m], prefs, events);
    assert Fits(g, k) && k * g.increment >= 0;
    EligiblePassesHours(c[m], prefs, events);
    FilteredScoreInUnitRange(c[m], input);
  }

  lemma EligiblePassesHours(slot: TimeSlot, prefs: Preferences, events: seq<Event>)
    requires Eligible(slot, prefs, events)
    ensures PassesHours(slot, prefs)
  {
  }

  lemma BehindChosen(pool: seq<ScoredSlot>, chosen: seq<ScoredSlot>, limit: nat, i: nat) returns (m: nat)
    requires Best(pool, chosen, limit) && i < |chosen|
    ensures m < |pool| && pool[m] == chosen[i]
  {
    var omitted :| BestOf(pool, chosen, omitted, limit);
    assert chosen[i] in multiset(chosen);
    assert chosen[i] in multiset(pool);
    m :| 0 <= m < |pool| && pool[m] == chosen[i];
  }

  /** A request that names no times is searched from the preferred hour of today on for seven days of 24
      hours, and every suggestion lies in that span; one that names no duration gets an hour, and every
      suggestion lasts as long as asked for. */
  lemma SuggestionsSpan(cfg: Config, req: SlotRequest, prefs: Preferences, events: seq<Event>, today: int,
                        chosen: seq<ScoredSlot>, limit: nat, i: nat)
    requires cfg.slotIncrementMinutes > 0 && i < |chosen|
    requires Best(Pool(GridOf(cfg, req, prefs, today), prefs, events, InputOf(req, prefs)), chosen, limit)
    ensures var slot := chosen[i].slot;
      && slot.end - slot.start == (if req.durationMinutes == 0 then 60 else req.durationMinutes) * 60_000_000_000
      && (req.preferredStart.None? ==> slot.start >= today + prefs.startHour * 3_600_000_000_000)
      && (req.preferredStart.None? && req.preferredEnd.None? ==>
            slot.end <= today + prefs.startHour * 3_600_000_000_000 + 604_800_000_000_000)
      && (req.preferredStart.Some? ==> slot.start >= req.preferredStart.value)
      && (req.preferredStart.Some? && req.preferredEnd.None? ==> slot.end <= req.preferredStart.value + 604_800_000_000_000)
      && (req.preferredEnd.Some? ==> slot.end <= req.preferredEnd.value)
      && exists k: nat :: slot.start == GridOf(cfg, req, prefs, today).start + k * (cfg.slotIncrementMinutes * 60_000_000_000)
  {
    hide Scored, Eligible, PassesHours, Best, Pool;
    var g := GridOf(cfg, req, prefs, today);
    var k := SuggestionsAreSound(g, prefs, events, InputOf(req, prefs), chosen, limit, i);
    SlotOfScored(SlotAt(g, k), InputOf(req, prefs));
  }

  lemma SlotOfScored(slot: TimeSlot, input: ScoreInput)
    ensures Scored(slot, input).slot == slot
  {
  }

  /** Every slot of the walk that fits and passes the filters is either suggested or scores no
      higher than any suggestion. */
  lemma SuggestionsAreMaximal(g: Grid, prefs: Preferences, events: seq<Event>, input: ScoreInput,
                              chosen: seq<ScoredSlot>, limit: nat, k: nat)
    requires g.increment > 0 && Best(Pool(g, prefs, events, input), chosen, limit)
    requires Fits(g, k) && Eligible(SlotAt(g, k), prefs, events)
    ensures var s := Scored(SlotAt(g, k), input);
      s in chosen || (|chosen| == limit && forall i :: 0 <= i < |chosen| ==> chosen[i].score >= s.score)
  {
    hide Scored, Eligible;
    var c := Candidates(g, prefs, events, Steps(g));
    StepsExactly(g);
    CandidatesExactly(g, prefs, events, Steps(g), SlotAt(g, k));
    var m :| 0 <= m < |c| && c[m] == SlotAt(g, k);
    NothingBetterOmitted(Pool(g, prefs, events, input), chosen, limit, m);
  }

  lemma NothingBetterOmitted(pool: seq<ScoredSlot>, chosen: seq<ScoredSlot>, limit: nat, m: nat)
    requires Best(pool, chosen, limit) && m < |pool|
    ensures pool[m] in chosen
      || (|chosen| == limit && forall i :: 0 <= i < |chosen| ==> chosen[i].score >= pool[m].score)
  {
    var omitted :| BestOf(pool, chosen, omitted, limit);
    assert pool[m] in multiset(pool);
    if pool[m] !in chosen {
      assert pool[m] !in multiset(chosen);
      assert pool[m] in multiset(omitted);
      var j :| 0 <= j < |omitted| && omitted[j] == pool[m];
      assert |pool| == |multiset(pool)| == |chosen| + |omitted|;
    }
  }
}
