/** The calendar conflict detector: sort by start time, scan forward, stop early. */
module Conflicts {
  import opened Options
  import opened LocalClock
  import opened Sorting

  datatype Status = Confirmed | Tentative | Cancelled

  datatype Event = Event(id: nat, start: int, end: int, isAllDay: bool, status: Status)

  /** A focus block as minutes after midnight; None where the stored text is not a clock time. */
  datatype FocusBlock = FocusBlock(start: Option<nat>, end: Option<nat>)

  datatype Preferences = Preferences(
    startHour: int, endHour: int, bufferMinutes: int, noMeetingDays: seq<int>, focusBlocks: seq<FocusBlock>)

  datatype Violation =
    | StartsBefore(hour: int)
    | EndsAfter(hour: int)
    | NoMeetingDay(weekday: int)
    | FocusOverlap(block: FocusBlock)

  datatype Conflict =
    | Hard(eventA: nat, eventB: nat, overlapMin: int)
    | Soft(eventA: nat, eventB: nat, gapMin: int)
    | Preference(eventA: nat, violation: Violation)

  function Buffer(prefs: Preferences): int
  {
    prefs.bufferMinutes * MINUTE
  }

  // ------------------------------------------------- the scan, as a function

  /** The non-cancelled events among the first n. */
  function ActivePrefix(events: seq<Event>, n: nat): seq<Event>
    requires n <= |events|
  {
    if n == 0 then []
    else ActivePrefix(events, n - 1) + if events[n - 1].status == Cancelled then [] else [events[n - 1]]
  }

  function Active(events: seq<Event>): seq<Event>
  {
    ActivePrefix(events, |events|)
  }

  /** What the scan reports of `a` and a later-starting `b`. */
  function PairConflict(a: Event, b: Event, buffer: int): seq<Conflict>
  {
    if b.start >= a.end + buffer || a.isAllDay || b.isAllDay then []
    else if b.start < a.end then [Hard(a.id, b.id, (a.end - b.start) / MINUTE)]
    else [Soft(a.id, b.id, (b.start - a.end) / MINUTE)]
  }

  /** Event i against the later events before position j: no early stop. */
  function Row(order: seq<Event>, i: nat, j: nat, buffer: int): seq<Conflict>
    requires i < j <= |order|
  {
    if j == i + 1 then []
    else Row(order, i, j - 1, buffer) + PairConflict(order[i], order[j - 1], buffer)
  }

  function InPreferences(e: Event, vs: seq<Violation>, n: nat): seq<Conflict>
    requires n <= |vs|
  {
    if n == 0 then [] else InPreferences(e, vs, n - 1) + [Preference(e.id, vs[n - 1])]
  }

  /** What one event contributes: its pairs, then its preference violations. */
  function Reports(order: seq<Event>, i: nat, prefs: Preferences): seq<Conflict>
    requires i < |order|
  {
    var vs := Violations(order[i], prefs);
    Row(order, i, |order|, Buffer(prefs)) + InPreferences(order[i], vs, |vs|)
  }

  function Rows(order: seq<Event>, prefs: Preferences): seq<seq<Conflict>>
  {
    seq(|order|, i requires 0 <= i < |order| => Reports(order, i, prefs))
  }

  function Flatten(rows: seq<seq<Conflict>>, n: nat): seq<Conflict>
    requires n <= |rows|
  {
    if n == 0 then [] else Flatten(rows, n - 1) + rows[n - 1]
  }

  /** The reports of all events, in their order. */
  function Scan(order: seq<Event>, prefs: Preferences): seq<Conflict>
  {
    Flatten(Rows(order, prefs), |order|)
  }

  lemma ScanStep(order: seq<Event>, i: nat, prefs: Preferences)
    requires i < |order|
    ensures Flatten(Rows(order, prefs), i + 1) == Flatten(Rows(order, prefs), i) + Reports(order, i, prefs)
  {
  }

  predicate StartsEarlier(a: Event, b: Event)
  {
    a.start < b.start
  }

  ghost predicate ByStart(s: seq<Event>)
  {
    forall i, j :: 0 <= i < j < |s| ==> s[i].start <= s[j].start
  }

  lemma {:induction false} RowOutOfReach(order: seq<Event>, i: nat, from: nat, j: nat, buffer: int)
    requires i < from <= j <= |order|
    requires forall k :: from <= k < j ==> order[k].start >= order[i].end + buffer
    ensures Row(order, i, j, buffer) == Row(order, i, from, buffer)
    decreases j
  {
    if from < j {
      RowOutOfReach(order, i, from, j - 1, buffer);
    }
  }

  method FilterActive(events: seq<Event>) returns (active: seq<Event>)
    ensures active == Active(events)
  {
    active := [];
    for i := 0 to |events|
      invariant active == ActivePrefix(events, i)
    {
      if events[i].status != Cancelled {
        active := active + [events[i]];
      }
    }
  }

  method SortByStart(events: seq<Event>) returns (sorted: seq<Event>)
    ensures multiset(sorted) == multiset(events) && ByStart(sorted)
  {
    sorted := SortSlice(events, StartsEarlier);
    forall i, j | 0 <= i < j < |sorted| ensures sorted[i].start <= sorted[j].start {
      assert !StartsEarlier(sorted[j], sorted[i]);
    }
  }

  /** The inner loop: stops at the first event that starts beyond the end of event i plus buffer. */
  method ScanRow(active: seq<Event>, i: nat, buffer: int) returns (row: seq<Conflict>)
    requires i < |active| && ByStart(active)
    ensures row == Row(active, i, |active|, buffer)
  {
    row := [];
    var j := i + 1;
    while j < |active|
      invariant i + 1 <= j <= |active|
      invariant row == Row(active, i, j, buffer)
    {
      if active[j].start >= active[i].end + buffer {
        RowOutOfReach(active, i, j, |active|, buffer);
        return;
      }
      if active[i].isAllDay || active[j].isAllDay {
        j := j + 1;
        continue;
      }
      if active[j].start < active[i].end {
        var overlap := active[i].end - active[j].start;
        row := row + [Hard(active[i].id, active[j].id, overlap / MINUTE)];
      } else {
        var gap := active[j].start - active[i].end;
        row := row + [Soft(active[i].id, active[j].id, gap / MINUTE)];
      }
      j := j + 1;
    }
  }

  method PreferenceConflicts(event: Event, prefs: Preferences) returns (found: seq<Conflict>)
    ensures found == InPreferences(event, Violations(event, prefs), |Violations(event, prefs)|)
  {
    found := [];
    var violations := CheckPreferences(event, prefs);
    for k := 0 to |violations|
      invariant found == InPreferences(event, violations, k)
    {
      found := found + [Preference(event.id, violations[k])];
    }
  }

  /** One round of the outer loop. */
  method EventConflicts(active: seq<Event>, i: nat, prefs: Preferences) returns (found: seq<Conflict>)
    requires i < |active| && ByStart(active)
    ensures found == Reports(active, i, prefs)
  {
    var buffer := prefs.bufferMinutes * MINUTE;
    var row := ScanRow(active, i, buffer);
    var preferences := PreferenceConflicts(active[i], prefs);
    found := row + preferences;
  }

  /** The outer loop. */
  method ScanAll(active: seq<Event>, prefs: Preferences) returns (conflicts: seq<Conflict>)
    requires ByStart(active)
    ensures conflicts == Scan(active, prefs)
  {
    hide Reports;
    conflicts := [];
    for i := 0 to |active|
      invariant conflicts == Flatten(Rows(active, prefs), i)
    {
      var found := EventConflicts(active, i, prefs);
      ScanStep(active, i, prefs);
      conflicts := conflicts + found;
    }
  }

  /** Each pair of active events is reported exactly as often as the definition asks for, and no
      other pair is. */
  ghost predicate ReportsExactly(conflicts: seq<Conflict>, events: seq<Event>, buffer: int)
  {
    forall p :: Reported(conflicts, p) == AllPairs(Active(events), p, buffer)
  }

  /** The detector. `order` is the order in which the sort happened to leave the active events. */
  method DetectConflicts(events: seq<Event>, prefs: Preferences)
      returns (conflicts: seq<Conflict>, ghost order: seq<Event>)
    ensures multiset(order) == multiset(Active(events)) && ByStart(order)
    ensures conflicts == Scan(order, prefs)
    ensures PositiveDurations(events) ==>
      (ReportsExactly(conflicts, events, Buffer(prefs)) <==> NothingHidden(order, Buffer(prefs)))
    ensures PositiveDurations(events) && Buffer(prefs) >= 0 ==> ReportsExactly(conflicts, events, Buffer(prefs))
  {
    var active := FilterActive(events);
    active := SortByStart(active);
    order := active;
    conflicts := ScanAll(active, prefs);
    if PositiveDurations(events) {
      ReportsAllPairs(events, active, prefs);
    }
  }

  // -------------------------------------------------------- preferences

  function MinuteOfDay(t: int): int
  {
    HourOf(t) * 60 + MinuteOf(t)
  }

  function HourViolations(e: Event, prefs: Preferences): seq<Violation>
  {
    (if HourOf(e.start) < prefs.startHour then [StartsBefore(HourOf(e.start))] else [])
    + (if HourOf(e.end) > prefs.endHour then [EndsAfter(HourOf(e.end))] else [])
  }

  function DayViolations(e: Event, prefs: Preferences): seq<Violation>
  {
    if Weekday(e.start) in prefs.noMeetingDays then [NoMeetingDay(Weekday(e.start))] else []
  }

  /** The overlap test between a span of time and a focus block, by minutes of day. */
  predicate HitsBlock(start: int, end: int, b: FocusBlock)
  {
    b.start.Some? && b.end.Some? && MinuteOfDay(start) < b.end.value && MinuteOfDay(end) > b.start.value
  }

  function BlockViolations(e: Event, blocks: seq<FocusBlock>, n: nat): seq<Violation>
    requires n <= |blocks|
  {
    if n == 0 then []
    else BlockViolations(e, blocks, n - 1) + if HitsBlock(e.start, e.end, blocks[n - 1]) then [FocusOverlap(blocks[n - 1])] else []
  }

  function Violations(e: Event, prefs: Preferences): seq<Violation>
  {
    if e.isAllDay then []
    else HourViolations(e, prefs) + DayViolations(e, prefs) + BlockViolations(e, prefs.focusBlocks, |prefs.focusBlocks|)
  }

  method CheckPreferences(event: Event, prefs: Preferences) returns (violations: seq<Violation>)
    ensures violations == Violations(event, prefs)
  {
    violations := [];
    if event.isAllDay {
      return;
    }
    var hour, endHour := HourOf(event.start), HourOf(event.end);
    if hour < prefs.startHour {
      violations := violations + [StartsBefore(hour)];
    }
    if endHour > prefs.endHour {
      violations := violations + [EndsAfter(endHour)];
    }
    var weekday := Weekday(event.start);
    ghost var hours := violations;
    for i := 0 to |prefs.noMeetingDays|
      invariant violations == hours
      invariant weekday !in prefs.noMeetingDays[..i]
    {
      if weekday == prefs.noMeetingDays[i] {
        violations := violations + [NoMeetingDay(weekday)];
        break;
      }
    }
    assert prefs.noMeetingDays[..|prefs.noMeetingDays|] == prefs.noMeetingDays;
    assert violations == HourViolations(event, prefs) + DayViolations(event, prefs);
    ghost var days := violations;
    var blocks := prefs.focusBlocks;
    for i := 0 to |blocks|
      invariant violations == days + BlockViolations(event, blocks, i)
    {
      var fb := blocks[i];
      if fb.start.None? || fb.end.None? {
        continue;
      }
      var eventStart := HourOf(event.start) * 60 + MinuteOf(event.start);
      var eventEnd := HourOf(event.end) * 60 + MinuteOf(event.end);
      if eventStart < fb.end.value && eventEnd > fb.start.value {
        violations := violations + [FocusOverlap(fb)];
      }
    }
  }

  // ------------------------------------------------ the all-pairs reference

  datatype Kind = IsHard | IsSoft

  /** A report about an unordered pair of events, named by their two ids in numeric order. */
  datatype Pair = Pair(low: nat, high: nat, kind: Kind)

  function Unordered(a: nat, b: nat, kind: Kind): Pair
  {
    if a <= b then Pair(a, b, kind) else Pair(b, a, kind)
  }

  predicate Intersects(a: Event, b: Event)
  {
    a.start < b.end && b.start < a.end
  }

  /** From the earlier end to the later start. */
  function Gap(a: Event, b: Event): int
  {
    (if a.start < b.start then b.start else a.start) - (if a.end < b.end then a.end else b.end)
  }

  function KindOf(a: Event, b: Event, buffer: int): Option<Kind>
  {
    if a.isAllDay || b.isAllDay then None
    else if Intersects(a, b) then Some(IsHard)
    else if Gap(a, b) < buffer then Some(IsSoft)
    else None
  }

  /** 1 if the definition makes `p` a report about these two events, else 0. */
  function Report(a: Event, b: Event, p: Pair, buffer: int): nat
  {
    var k := KindOf(a, b, buffer);
    if k.Some? && Unordered(a.id, b.id, k.value) == p then 1 else 0
  }

  function Against(a: Event, s: seq<Event>, p: Pair, buffer: int): nat
  {
    if s == [] then 0 else Against(a, s[..|s| - 1], p, buffer) + Report(a, s[|s| - 1], p, buffer)
  }

  /** How many unordered pairs of a list make `p` a report: every pair is tested, each once. */
  function AllPairs(s: seq<Event>, p: Pair, buffer: int): nat
  {
    if s == [] then 0 else Against(s[0], s[1..], p, buffer) + AllPairs(s[1..], p, buffer)
  }

  function PairOf(c: Conflict): Option<Pair>
  {
    match c
    case Hard(a, b, _) => Some(Unordered(a, b, IsHard))
    case Soft(a, b, _) => Some(Unordered(a, b, IsSoft))
    case Preference(_, _) => None
  }

  function IsReport(c: Conflict, p: Pair): nat
  {
    if PairOf(c) == Some(p) then 1 else 0
  }

  /** How often a list of conflicts reports `p`. */
  function Reported(cs: seq<Conflict>, p: Pair): nat
  {
    if cs == [] then 0 else Reported(cs[..|cs| - 1], p) + IsReport(cs[|cs| - 1], p)
  }

  ghost predicate Positive(e: Event)
  {
    !e.isAllDay ==> e.start < e.end
  }

  ghost predicate PositiveDurations(events: seq<Event>)
  {
    forall e :: e in events && e.status != Cancelled ==> Positive(e)
  }

  // ------------------------------------- permutations do not change AllPairs

  lemma ReportSymmetric(a: Event, b: Event, p: Pair, buffer: int)
    ensures Report(a, b, p, buffer) == Report(b, a, p, buffer)
  {
  }

  lemma {:induction false} AgainstSplit(a: Event, s: seq<Event>, t: seq<Event>, p: Pair, buffer: int)
    ensures Against(a, s + t, p, buffer) == Against(a, s, p, buffer) + Against(a, t, p, buffer)
  {
    if t == [] {
      assert s + t == s;
    } else {
      assert (s + t)[..|s + t| - 1] == s + t[..|t| - 1];
      AgainstSplit(a, s, t[..|t| - 1], p, buffer);
    }
  }

  lemma AgainstInsert(a: Event, s: seq<Event>, x: Event, t: seq<Event>, p: Pair, buffer: int)
    ensures Against(a, s + [x] + t, p, buffer) == Report(a, x, p, buffer) + Against(a, s + t, p, buffer)
  {
    AgainstSplit(a, s + [x], t, p, buffer);
    AgainstSplit(a, s, [x], p, buffer);
    AgainstSplit(a, s, t, p, buffer);
    assert [x][..0] == [];
  }

  /** An event can be pulled out of the middle of a list. */
  lemma {:induction false} PullOut(s: seq<Event>, x: Event, t: seq<Event>, p: Pair, buffer: int)
    ensures AllPairs(s + [x] + t, p, buffer) == Against(x, s + t, p, buffer) + AllPairs(s + t, p, buffer)
  {
    hide Report, Against, AllPairs;
    if s == [] {
      assert s + [x] + t == [x] + t && s + t == t;
      AllPairsCons(x, t, p, buffer);
    } else {
      var y, rest := s[0], s[1..];
      assert s + [x] + t == [y] + (rest + [x] + t) && s + t == [y] + (rest + t);
      AllPairsCons(y, rest + [x] + t, p, buffer);
      AllPairsCons(y, rest + t, p, buffer);
      PullOut(rest, x, t, p, buffer);
      AgainstInsert(y, rest, x, t, p, buffer);
      AgainstInsert(x, [], y, rest + t, p, buffer);
      assert [] + [y] + (rest + t) == [y] + (rest + t) && [] + (rest + t) == rest + t;
      ReportSymmetric(x, y, p, buffer);
    }
  }

  lemma AllPairsCons(y: Event, s: seq<Event>, p: Pair, buffer: int)
    ensures AllPairs([y] + s, p, buffer) == Against(y, s, p, buffer) + AllPairs(s, p, buffer)
  {
    assert ([y] + s)[1..] == s;
  }

  lemma {:induction false} AgainstPermutation(a: Event, s: seq<Event>, t: seq<Event>, p: Pair, buffer: int)
    requires multiset(s) == multiset(t)
    ensures Against(a, s, p, buffer) == Against(a, t, p, buffer)
  {
    if s == [] {
      assert |multiset(t)| == 0;
    } else {
      var k := Position(s, t);
      AgainstPermutation(a, s[1..], t[..k] + t[k + 1..], p, buffer);
      AgainstInsert(a, t[..k], t[k], t[k + 1..], p, buffer);
      AgainstInsert(a, [], s[0], s[1..], p, buffer);
      assert [] + [s[0]] + s[1..] == s && [] + s[1..] == s[1..];
    }
  }

  /** Where the head of one list sits in a permutation of it. */
  lemma Position(s: seq<Event>, t: seq<Event>) returns (k: nat)
    requires s != [] && multiset(s) == multiset(t)
    ensures k < |t| && t[k] == s[0] && t == t[..k] + [t[k]] + t[k + 1..]
    ensures multiset(s[1..]) == multiset(t[..k] + t[k + 1..])
  {
    assert s[0] in multiset(s);
    assert s[0] in t;
    k :| 0 <= k < |t| && t[k] == s[0];
    assert s == [s[0]] + s[1..];
    assert t == t[..k] + [t[k]] + t[k + 1..];
    calc {
      multiset(s[1..]);
      multiset(s) - multiset{s[0]};
      multiset(t[..k] + [t[k]] + t[k + 1..]) - multiset{t[k]};
      multiset(t[..k]) + multiset(t[k + 1..]);
      multiset(t[..k] + t[k + 1..]);
    }
  }

  lemma {:induction false} PermutationInvariant(s: seq<Event>, t: seq<Event>, p: Pair, buffer: int)
    requires multiset(s) == multiset(t)
    ensures AllPairs(s, p, buffer) == AllPairs(t, p, buffer)
  {
    if s == [] {
      assert |multiset(t)| == 0;
    } else {
      var k := Position(s, t);
      PermutationInvariant(s[1..], t[..k] + t[k + 1..], p, buffer);
      AgainstPermutation(s[0], s[1..], t[..k] + t[k + 1..], p, buffer);
      PullOut(t[..k], t[k], t[k + 1..], p, buffer);
    }
  }

  // --------------------------------------------- the scan reports all pairs

  lemma {:induction false} ReportedConcat(a: seq<Conflict>, b: seq<Conflict>, p: Pair)
    ensures Reported(a + b, p) == Reported(a, p) + Reported(b, p)
  {
    if b == [] {
      assert a + b == a;
    } else {
      var init := b[..|b| - 1];
      ReportedConcat(a, init, p);
      assert (a + b)[..|a + b| - 1] == a + init;
    }
  }

  lemma {:induction false} PreferencesReportNoPair(e: Event, vs: seq<Violation>, n: nat, p: Pair)
    requires n <= |vs|
    ensures Reported(InPreferences(e, vs, n), p) == 0
  {
    if n > 0 {
      PreferencesReportNoPair(e, vs, n - 1, p);
      ReportedConcat(InPreferences(e, vs, n - 1), [Preference(e.id, vs[n - 1])], p);
    }
  }

  /** An overlap that a negative buffer hides from the scan. */
  predicate Hidden(a: Event, b: Event, buffer: int)
  {
    a.end + buffer <= b.start < a.end && !a.isAllDay && !b.isAllDay
  }

  /** A hard report that the scan owes about two events and does not make. */
  predicate Misses(a: Event, b: Event, p: Pair, buffer: int)
  {
    Hidden(a, b, buffer) && p == Unordered(a.id, b.id, IsHard)
  }

  ghost predicate NothingHidden(order: seq<Event>, buffer: int)
  {
    forall i, j :: 0 <= i < j < |order| ==> !Hidden(order[i], order[j], buffer)
  }

  lemma PairTest(a: Event, b: Event, p: Pair, buffer: int)
    requires a.start <= b.start && Positive(a) && Positive(b)
    ensures Reported(PairConflict(a, b, buffer), p) == Report(a, b, p, buffer) - if Misses(a, b, p, buffer) then 1 else 0
  {
  }

  /** The scan's test on two events in start order is the definition of the pair's kind, except for
      hidden overlaps. */
  lemma PairTestExact(a: Event, b: Event, buffer: int)
    requires a.start <= b.start && Positive(a) && Positive(b)
    ensures (forall p :: Reported(PairConflict(a, b, buffer), p) == Report(a, b, p, buffer)) <==> !Hidden(a, b, buffer)
  {
    if Hidden(a, b, buffer) {
      var p := Unordered(a.id, b.id, IsHard);
      assert Reported(PairConflict(a, b, buffer), p) != Report(a, b, p, buffer);
    }
  }

  lemma AgainstSlice(a: Event, order: seq<Event>, i: nat, j: nat, p: Pair, buffer: int)
    requires i < j <= |order|
    ensures Against(a, order[i..j], p, buffer) ==
      Against(a, order[i..j - 1], p, buffer) + Report(a, order[j - 1], p, buffer)
  {
    assert order[i..j][..j - i - 1] == order[i..j - 1];
  }

  lemma RowExtends(order: seq<Event>, i: nat, j: nat, p: Pair, buffer: int)
    requires i + 1 < j <= |order| && ByStart(order)
    requires Positive(order[i]) && Positive(order[j - 1])
    ensures Reported(Row(order, i, j, buffer), p) ==
      Reported(Row(order, i, j - 1, buffer), p) + Report(order[i], order[j - 1], p, buffer)
      - if Misses(order[i], order[j - 1], p, buffer) then 1 else 0
  {
    PairTest(order[i], order[j - 1], p, buffer);
    ReportedConcat(Row(order, i, j - 1, buffer), PairConflict(order[i], order[j - 1], buffer), p);
  }

  function ReportRange(order: seq<Event>, i: nat, j: nat, p: Pair, buffer: int): nat
    requires i < j <= |order|
  {
    if j == i + 1 then 0 else ReportRange(order, i, j - 1, p, buffer) + Report(order[i], order[j - 1], p, buffer)
  }

  /** How many reports of `p` row i misses before position j. */
  function Missed(order: seq<Event>, i: nat, j: nat, p: Pair, buffer: int): nat
    requires i < j <= |order|
  {
    if j == i + 1 then 0
    else Missed(order, i, j - 1, p, buffer) + if Misses(order[i], order[j - 1], p, buffer) then 1 else 0
  }

  lemma {:induction false} RowIsRange(order: seq<Event>, i: nat, j: nat, p: Pair, buffer: int)
    requires i < j <= |order| && ByStart(order)
    requires forall k :: 0 <= k < |order| ==> Positive(order[k])
    ensures Reported(Row(order, i, j, buffer), p) + Missed(order, i, j, p, buffer) == ReportRange(order, i, j, p, buffer)
  {
    if j > i + 1 {
      RowIsRange(order, i, j - 1, p, buffer);
      RowExtends(order, i, j, p, buffer);
    }
  }

  lemma {:induction false} MissedExactly(order: seq<Event>, i: nat, j: nat, p: Pair, buffer: int)
    requires i < j <= |order|
    ensures Missed(order, i, j, p, buffer) > 0 <==> exists k :: i < k < j && Misses(order[i], order[k], p, buffer)
  {
    if j > i + 1 {
      MissedExactly(order, i, j - 1, p, buffer);
    }
  }

  lemma {:induction false} AgainstIsRange(order: seq<Event>, i: nat, j: nat, p: Pair, buffer: int)
    requires i < j <= |order|
    ensures Against(order[i], order[i + 1..j], p, buffer) == ReportRange(order, i, j, p, buffer)
  {
    if j > i + 1 {
      AgainstIsRange(order, i, j - 1, p, buffer);
      AgainstSlice(order[i], order, i + 1, j, p, buffer);
    }
  }

  /** How many reports of `p` the first n rows miss. */
  function MissedIn(order: seq<Event>, n: nat, p: Pair, buffer: int): nat
    requires n <= |order|
  {
    if n == 0 then 0 else MissedIn(order, n - 1, p, buffer) + Missed(order, n - 1, |order|, p, buffer)
  }

  lemma {:induction false} RowsCoverPairs(rows: seq<seq<Conflict>>, order: seq<Event>, n: nat, p: Pair, buffer: int)
    requires n <= |order| == |rows|
    requires forall i :: 0 <= i < |order| ==>
      Reported(rows[i], p) + Missed(order, i, |order|, p, buffer) == Against(order[i], order[i + 1..], p, buffer)
    ensures Reported(Flatten(rows, n), p) + MissedIn(order, n, p, buffer) + AllPairs(order[n..], p, buffer)
      == AllPairs(order, p, buffer)
  {
    if n == 0 {
      assert order[0..] == order;
    } else {
      RowsCoverPairs(rows, order, n - 1, p, buffer);
      ReportedConcat(Flatten(rows, n - 1), rows[n - 1], p);
      AllPairsFrom(order, n, p, buffer);
    }
  }

  lemma {:induction false} MissedInExactly(order: seq<Event>, n: nat, p: Pair, buffer: int)
    requires n <= |order|
    ensures MissedIn(order, n, p, buffer) > 0 <==>
      exists i, k :: 0 <= i < n && i < k < |order| && Misses(order[i], order[k], p, buffer)
  {
    if n > 0 {
      MissedInExactly(order, n - 1, p, buffer);
      MissedExactly(order, n - 1, |order|, p, buffer);
    }
  }

  lemma AllPairsFrom(order: seq<Event>, n: nat, p: Pair, buffer: int)
    requires 0 < n <= |order|
    ensures AllPairs(order[n - 1..], p, buffer) ==
      Against(order[n - 1], order[n..], p, buffer) + AllPairs(order[n..], p, buffer)
  {
    assert order[n - 1..][1..] == order[n..];
  }

  lemma EventReports(order: seq<Event>, i: nat, p: Pair, prefs: Preferences)
    requires i < |order| && ByStart(order)
    requires forall k :: 0 <= k < |order| ==> Positive(order[k])
    ensures Reported(Reports(order, i, prefs), p) + Missed(order, i, |order|, p, Buffer(prefs))
      == Against(order[i], order[i + 1..], p, Buffer(prefs))
  {
    var vs := Violations(order[i], prefs);
    RowIsRange(order, i, |order|, p, Buffer(prefs));
    AgainstIsRange(order, i, |order|, p, Buffer(prefs));
    PreferencesReportNoPair(order[i], vs, |vs|, p);
    ReportedConcat(Row(order, i, |order|, Buffer(prefs)), InPreferences(order[i], vs, |vs|), p);
    assert order[i + 1..|order|] == order[i + 1..];
  }

  /** For every pair, what the scan reports and what it misses make up the definition. */
  lemma ScanReportsAllPairs(order: seq<Event>, p: Pair, prefs: Preferences)
    requires ByStart(order)
    requires forall k :: 0 <= k < |order| ==> Positive(order[k])
    ensures Reported(Scan(order, prefs), p) + MissedIn(order, |order|, p, Buffer(prefs)) == AllPairs(order, p, Buffer(prefs))
  {
    forall i | 0 <= i < |order|
      ensures Reported(Rows(order, prefs)[i], p) + Missed(order, i, |order|, p, Buffer(prefs))
        == Against(order[i], order[i + 1..], p, Buffer(prefs))
    {
      EventReports(order, i, p, prefs);
    }
    RowsCoverPairs(Rows(order, prefs), order, |order|, p, Buffer(prefs));
    assert order[|order|..] == [];
  }

  lemma {:induction false} ActiveMembers(events: seq<Event>, n: nat)
    requires n <= |events|
    ensures forall e :: e in ActivePrefix(events, n) <==> e in events[..n] && e.status != Cancelled
  {
    if n > 0 {
      ActiveMembers(events, n - 1);
      assert events[..n] == events[..n - 1] + [events[n - 1]];
    }
  }

  lemma PermutationMembers(s: seq<Event>, t: seq<Event>)
    requires multiset(s) == multiset(t)
    ensures forall k :: 0 <= k < |s| ==> s[k] in t
  {
    forall k | 0 <= k < |s| ensures s[k] in t {
      assert s[k] in multiset(s);
    }
  }

  /** Whatever order the sort leaves and whatever the buffer, the scan with its early stop reports
      exactly what the all-pairs definition asks for iff no overlap lies hidden in that order. With a
      nonnegative buffer none ever does. */
  lemma ReportsAllPairs(events: seq<Event>, order: seq<Event>, prefs: Preferences)
    requires multiset(order) == multiset(Active(events)) && ByStart(order) && PositiveDurations(events)
    ensures ReportsExactly(Scan(order, prefs), events, Buffer(prefs)) <==> NothingHidden(order, Buffer(prefs))
    ensures Buffer(prefs) >= 0 ==> ReportsExactly(Scan(order, prefs), events, Buffer(prefs))
  {
    hide Scan, Hidden;
    ActiveMembers(events, |events|);
    assert events[..|events|] == events;
    PermutationMembers(order, Active(events));
    var n, buffer := |order|, Buffer(prefs);
    forall p ensures
      Reported(Scan(order, prefs), p) + MissedIn(order, n, p, buffer) == AllPairs(Active(events), p, buffer)
    {
      ScanReportsAllPairs(order, p, prefs);
      PermutationInvariant(order, Active(events), p, buffer);
    }
    forall p ensures MissedIn(order, n, p, buffer) > 0 <==>
      exists i, k :: 0 <= i < n && i < k < n && Misses(order[i], order[k], p, buffer)
    {
      MissedInExactly(order, n, p, buffer);
    }
    if i, k :| 0 <= i < k < n && Hidden(order[i], order[k], buffer) {
      var p := Unordered(order[i].id, order[k].id, IsHard);
      assert Misses(order[i], order[k], p, buffer);
      assert MissedIn(order, n, p, buffer) > 0;
    }
    NeverHidden(order, buffer);
  }

  lemma NeverHidden(order: seq<Event>, buffer: int)
    ensures buffer >= 0 ==> NothingHidden(order, buffer)
  {
  }

  // ------------------------------------------ the condition on the input

  /** Two listed events, the one not starting before the other, of which a negative buffer hides the
      overlap. */
  ghost predicate HidesAPair(events: multiset<Event>, buffer: int)
  {
    exists a, b :: multiset{a, b} <= events && a.start <= b.start && Hidden(a, b, buffer)
  }

  /** The outcomes a sort by start time may have. */
  ghost predicate SortOutcome(order: seq<Event>, events: seq<Event>)
  {
    multiset(order) == multiset(Active(events)) && ByStart(order)
  }

  lemma TwoOf(order: seq<Event>, i: nat, j: nat)
    requires i < j < |order|
    ensures multiset{order[i], order[j]} <= multiset(order)
  {
    assert order == order[..i] + [order[i]] + order[i + 1..j] + [order[j]] + order[j + 1..];
    assert multiset(order) == multiset(order[..i]) + multiset{order[i]} + multiset(order[i + 1..j])
      + multiset{order[j]} + multiset(order[j + 1..]);
  }

  function PutFirst(x: Event, s: seq<Event>): seq<Event>
  {
    if s == [] || x.start <= s[0].start then [x] + s else [s[0]] + PutFirst(x, s[1..])
  }

  lemma {:induction false} PutFirstAdds(x: Event, s: seq<Event>)
    ensures multiset(PutFirst(x, s)) == multiset(s) + multiset{x}
  {
    if s != [] {
      PutFirstAdds(x, s[1..]);
      assert s == [s[0]] + s[1..];
    }
  }

  lemma OrderedCons(x: Event, s: seq<Event>)
    requires ByStart(s) && (s == [] || x.start <= s[0].start)
    ensures ByStart([x] + s)
  {
  }

  lemma {:induction false} PutFirstSorts(x: Event, s: seq<Event>)
    requires ByStart(s)
    ensures ByStart(PutFirst(x, s))
  {
    if s == [] || x.start <= s[0].start {
      OrderedCons(x, s);
    } else {
      var rest := PutFirst(x, s[1..]);
      PutFirstSorts(x, s[1..]);
      assert rest[0] == x || rest[0] == s[1];
      OrderedCons(s[0], rest);
    }
  }

  function SortedByStart(s: seq<Event>): seq<Event>
  {
    if s == [] then [] else PutFirst(s[0], SortedByStart(s[1..]))
  }

  lemma {:induction false} SortedByStartSorts(s: seq<Event>)
    ensures multiset(SortedByStart(s)) == multiset(s) && ByStart(SortedByStart(s))
  {
    if s != [] {
      SortedByStartSorts(s[1..]);
      PutFirstSorts(s[0], SortedByStart(s[1..]));
      PutFirstAdds(s[0], SortedByStart(s[1..]));
      assert s == [s[0]] + s[1..];
    }
  }

  /** Put first among its equals, an event precedes every listed one that does not start before it. */
  lemma {:induction false} PutFirstPrecedes(a: Event, b: Event, s: seq<Event>) returns (i: nat, j: nat)
    requires b in s && a.start <= b.start && ByStart(s)
    ensures i < j < |PutFirst(a, s)| && PutFirst(a, s)[i] == a && PutFirst(a, s)[j] == b
  {
    if a.start <= s[0].start {
      var k :| 0 <= k < |s| && s[k] == b;
      i, j := 0, k + 1;
    } else {
      i, j := PutFirstPrecedes(a, b, s[1..]);
      i, j := i + 1, j + 1;
    }
  }

  lemma Without(x: Event, s: seq<Event>) returns (t: seq<Event>)
    requires x in s
    ensures multiset(s) == multiset(t) + multiset{x}
  {
    var k :| 0 <= k < |s| && s[k] == x;
    t := s[..k] + s[k + 1..];
    assert s == s[..k] + [s[k]] + s[k + 1..];
  }

  /** A pair that is hidden in the input is hidden in some outcome of the sort. */
  lemma HiddenInSomeOrder(events: seq<Event>, a: Event, b: Event) returns (order: seq<Event>, i: nat, j: nat)
    requires multiset{a, b} <= multiset(Active(events)) && a.start <= b.start
    ensures SortOutcome(order, events) && i < j < |order| && order[i] == a && order[j] == b
  {
    var s := Active(events);
    assert a in multiset(s);
    var t := Without(a, s);
    assert multiset{a, b} - multiset{a} == multiset{b};
    assert b in multiset(t);
    var rest := SortedByStart(t);
    SortedByStartSorts(t);
    assert b in multiset(rest);
    PutFirstSorts(a, rest);
    PutFirstAdds(a, rest);
    order := PutFirst(a, rest);
    i, j := PutFirstPrecedes(a, b, rest);
  }

  /** Whether the detector can be relied on, for whatever order the sort leaves, can be read off the
      events: iff no two of them are hidden from each other. */
  lemma DetectorExactOnInput(events: seq<Event>, prefs: Preferences)
    requires PositiveDurations(events)
    ensures (forall order :: SortOutcome(order, events) ==> ReportsExactly(Scan(order, prefs), events, Buffer(prefs)))
      <==> !HidesAPair(multiset(Active(events)), Buffer(prefs))
  {
    hide Scan, Hidden, ReportsExactly;
    var buffer := Buffer(prefs);
    if HidesAPair(multiset(Active(events)), buffer) {
      var a, b :| multiset{a, b} <= multiset(Active(events)) && a.start <= b.start && Hidden(a, b, buffer);
      var order, i, j := HiddenInSomeOrder(events, a, b);
      ReportsAllPairs(events, order, prefs);
      assert !NothingHidden(order, buffer);
    } else {
      forall order | SortOutcome(order, events) ensures ReportsExactly(Scan(order, prefs), events, buffer) {
        forall i, j | 0 <= i < j < |order| ensures !Hidden(order[i], order[j], buffer) {
          TwoOf(order, i, j);
        }
        ReportsAllPairs(events, order, prefs);
      }
    }
  }

  // ------------------------------------------------- each pair exactly once

  ghost predicate DistinctIds(s: seq<Event>)
  {
    forall i, j :: 0 <= i < j < |s| ==> s[i].id != s[j].id
  }

  predicate Names(p: Pair, id: nat)
  {
    id == p.low || id == p.high
  }

  lemma {:induction false} AgainstUnnamed(a: Event, s: seq<Event>, p: Pair, buffer: int)
    requires !Names(p, a.id) || forall k :: 0 <= k < |s| ==> s[k].id == a.id || !Names(p, s[k].id)
    requires forall k :: 0 <= k < |s| ==> s[k].id != a.id
    ensures Against(a, s, p, buffer) == 0
  {
    if s != [] {
      AgainstUnnamed(a, s[..|s| - 1], p, buffer);
    }
  }

  lemma {:induction false} AgainstPartner(a: Event, s: seq<Event>, j: nat, p: Pair, buffer: int)
    requires j < |s| && DistinctIds([a] + s) && Names(p, a.id) && Names(p, s[j].id) && p.low != p.high
    ensures Against(a, s, p, buffer) == Report(a, s[j], p, buffer)
  {
    var t := [a] + s;
    assert forall k :: 0 <= k < |s| ==> t[k + 1] == s[k];
    assert t[0] == a;
    var init := s[..|s| - 1];
    if j < |s| - 1 {
      assert ([a] + init) == t[..|t| - 1];
      AgainstPartner(a, init, j, p, buffer);
      assert s[|s| - 1].id != s[j].id && s[|s| - 1].id != a.id;
    } else {
      AgainstUnnamed(a, init, p, buffer);
    }
  }

  lemma {:induction false} AllPairsUnnamed(s: seq<Event>, p: Pair, id: nat, buffer: int)
    requires DistinctIds(s) && Names(p, id) && forall k :: 0 <= k < |s| ==> s[k].id != id
    requires p.low != p.high
    ensures AllPairs(s, p, buffer) == 0
  {
    if s != [] {
      AllPairsUnnamed(s[1..], p, id, buffer);
      AgainstUnnamed(s[0], s[1..], p, buffer);
    }
  }

  /** Each pair of events is counted once if the definition makes it a report, else not at all. */
  lemma {:induction false} PairCountedOnce(s: seq<Event>, i: nat, j: nat, kind: Kind, buffer: int)
    requires i < j < |s| && DistinctIds(s)
    ensures AllPairs(s, Unordered(s[i].id, s[j].id, kind), buffer) ==
      if KindOf(s[i], s[j], buffer) == Some(kind) then 1 else 0
  {
    var p := Unordered(s[i].id, s[j].id, kind);
    if i == 0 {
      assert [s[0]] + s[1..] == s;
      AgainstPartner(s[0], s[1..], j - 1, p, buffer);
      AllPairsUnnamed(s[1..], p, s[0].id, buffer);
    } else {
      AgainstUnnamed(s[0], s[1..], p, buffer);
      PairCountedOnce(s[1..], i - 1, j - 1, kind, buffer);
    }
  }

  lemma {:induction false} AgainstWitness(a: Event, s: seq<Event>, p: Pair, buffer: int) returns (j: nat)
    requires Against(a, s, p, buffer) > 0
    ensures j < |s| && Report(a, s[j], p, buffer) == 1
  {
    j := |s| - 1;
    if Report(a, s[j], p, buffer) == 0 {
      j := AgainstWitness(a, s[..j], p, buffer);
    }
  }

  /** Nothing else is counted: behind every report there is a pair of listed events. */
  lemma {:induction false} OnlyPairsCounted(s: seq<Event>, p: Pair, buffer: int) returns (i: nat, j: nat)
    requires AllPairs(s, p, buffer) > 0
    ensures i < j < |s| && p == Unordered(s[i].id, s[j].id, p.kind) && KindOf(s[i], s[j], buffer) == Some(p.kind)
  {
    if Against(s[0], s[1..], p, buffer) > 0 {
      j := AgainstWitness(s[0], s[1..], p, buffer);
      i, j := 0, j + 1;
    } else {
      i, j := OnlyPairsCounted(s[1..], p, buffer);
      i, j := i + 1, j + 1;
    }
  }

  // ----------------------------------------------- what the reports say

  /** The reported overlap runs to the end of the earlier event. In whole minutes it is the real one
      iff the earlier event ends before the later one, drawn out to its next full minute, would. */
  lemma OverlapExact(a: Event, b: Event, buffer: int)
    requires a.start <= b.start < a.end && b.start < b.end && !a.isAllDay && !b.isAllDay && !Hidden(a, b, buffer)
    ensures var shared := (if a.end < b.end then a.end else b.end) - b.start;
      && PairConflict(a, b, buffer) == [Hard(a.id, b.id, (a.end - b.start) / MINUTE)]
      && (a.end - b.start) / MINUTE >= shared / MINUTE
      && ((a.end - b.start) / MINUTE == shared / MINUTE <==>
            a.end < b.start + ((b.end - b.start) / MINUTE + 1) * MINUTE)
  {
  }

  lemma HoursAreNoDays(e: Event, prefs: Preferences, d: int)
    ensures NoMeetingDay(d) !in HourViolations(e, prefs) && (forall b :: FocusOverlap(b) !in HourViolations(e, prefs))
  {
  }

  lemma {:induction false} BlocksExactly(e: Event, blocks: seq<FocusBlock>, n: nat)
    requires n <= |blocks|
    ensures forall v :: v in BlockViolations(e, blocks, n) <==>
      v.FocusOverlap? && v.block in blocks[..n] && HitsBlock(e.start, e.end, v.block)
  {
    if n > 0 {
      BlocksExactly(e, blocks, n - 1);
      assert blocks[..n] == blocks[..n - 1] + [blocks[n - 1]];
    }
  }

  /** An event counts as on a no-meeting day iff it is timed and the weekday it starts on is listed, with
      Sunday as 0, and 1970-01-01 a Thursday. */
  lemma NoMeetingDayExact(e: Event, prefs: Preferences)
    ensures (exists d :: NoMeetingDay(d) in Violations(e, prefs)) <==>
      !e.isAllDay && (e.start / 86_400_000_000_000 + 4) % 7 in prefs.noMeetingDays
  {
    BlocksExactly(e, prefs.focusBlocks, |prefs.focusBlocks|);
    HoursAreNoDays(e, prefs, Weekday(e.start));
    if !e.isAllDay && Weekday(e.start) in prefs.noMeetingDays {
      assert NoMeetingDay(Weekday(e.start)) in Violations(e, prefs);
    }
  }

  /** A focus block on a day, as two instants. */
  function BlockStart(day: int, b: FocusBlock): int
    requires b.start.Some?
  {
    day * 86_400_000_000_000 + b.start.value * 60_000_000_000
  }

  function BlockEnd(day: int, b: FocusBlock): int
    requires b.end.Some?
  {
    day * 86_400_000_000_000 + b.end.value * 60_000_000_000
  }

  lemma MinutesAreExact(t: int, minute: nat)
    ensures MinuteOfDay(t) < minute <==> t < DayOf(t) * 86_400_000_000_000 + minute * 60_000_000_000
  {
  }

  /** A timed event that ends on the day it starts on is reported against a readable focus block iff it
      starts before the block ends and runs at least a full minute into it. */
  lemma FocusOverlapExact(e: Event, prefs: Preferences, b: FocusBlock)
    requires !e.isAllDay && DayOf(e.start) == DayOf(e.end) && b in prefs.focusBlocks
    ensures FocusOverlap(b) in Violations(e, prefs) <==>
      && b.start.Some? && b.end.Some? && e.start < BlockEnd(DayOf(e.start), b)
      && e.end >= BlockStart(DayOf(e.start), b) + 60_000_000_000
  {
    hide MinuteOfDay, DayOf;
    var blocks := prefs.focusBlocks;
    BlocksExactly(e, blocks, |blocks|);
    assert blocks[..|blocks|] == blocks;
    HoursAreNoDays(e, prefs, 0);
    if b.start.Some? && b.end.Some? {
      MinutesAreExact(e.start, b.end.value);
      MinutesAreExact(e.end, b.start.value + 1);
    }
  }

  /** Over midnight the test fails: an event from 23:00 to 01:00 misses a block from 23:00 to 23:59. */
  lemma NightFocusOverlooked(e: Event, day: int)
    requires e.start == At(day, 23) && e.end == At(day, 25)
    ensures !HitsBlock(e.start, e.end, FocusBlock(Some(1380), Some(1439)))
  {
    assert At(day, 25) == At(day + 1, 1) && TimeOfDay(At(day + 1, 1)) == HOUR;
  }

  /** A soft report gives the gap between the two events in whole minutes, which is below the buffer. */
  lemma GapExact(a: Event, b: Event, prefs: Preferences)
    requires a.start <= b.start && Positive(a) && Positive(b) && KindOf(a, b, Buffer(prefs)) == Some(IsSoft)
    ensures PairConflict(a, b, Buffer(prefs)) == [Soft(a.id, b.id, Gap(a, b) / 60_000_000_000)]
    ensures 0 <= Gap(a, b) < prefs.bufferMinutes * 60_000_000_000
  {
  }

  /** The start-of-day check is exact, whatever the preferred start. */
  lemma EarlyStartExact(e: Event, prefs: Preferences)
    ensures StartsBefore(HourOf(e.start)) in HourViolations(e, prefs) <==> e.start < At(DayOf(e.start), prefs.startHour)
  {
  }

  /** The end-of-day check compares the hour of day at which an event ends. Against the preferred end on
      the day the event starts on, it reports no event that is not late, and it overlooks a late one iff
      that ends less than an hour past the preferred hour of the day it ends on: in the first hour, or
      anywhere up to it on a later day. */
  lemma LateEndExact(e: Event, prefs: Preferences)
    requires e.start <= e.end
    ensures var late := e.end > At(DayOf(e.start), prefs.endHour);
      var reported := EndsAfter(HourOf(e.end)) in HourViolations(e, prefs);
      (reported ==> late) && (late && !reported <==> late && e.end < At(DayOf(e.end), prefs.endHour) + HOUR)
  {
    assert DayOf(e.start) <= DayOf(e.end);
    assert At(DayOf(e.end), 0) <= e.end < At(DayOf(e.end), 24);
  }

  /** An event from 17:00 to 01:00 is not reported with a preferred end of 18:00. */
  lemma NightEventOverlooked(e: Event, prefs: Preferences, day: int)
    requires e.start == At(day, 17) && e.end == At(day, 25) && prefs.endHour == 18
    ensures e.end > At(DayOf(e.start), prefs.endHour) && EndsAfter(HourOf(e.end)) !in HourViolations(e, prefs)
  {
    assert DayOf(e.start) == day;
    assert At(day, 25) == At(day + 1, 1) && TimeOfDay(At(day + 1, 1)) == HOUR;
  }
}
