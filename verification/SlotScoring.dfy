/** The five-part score of a candidate slot. Scores are reals; float rounding is not modelled. */
module SlotScoring {
  import opened Options
  import opened LocalClock
  import opened Conflicts

  datatype TimeSlot = TimeSlot(start: int, end: int)

  datatype MeetingType = Call30m | Workshop2h | OtherMeeting(name: string)

  datatype ScoreInput = ScoreInput(
    prefs: Preferences, meetingType: MeetingType, proposedTimes: seq<int>, attendees: seq<string>)

  datatype Breakdown = Breakdown(
    businessHours: real, userPreference: real, timeOfDay: real, attendeeConfidence: real, proximity: real)

  datatype ScoredSlot = ScoredSlot(slot: TimeSlot, score: real, breakdown: Breakdown)

  const MAX_FLOAT64: real :=
    179769313486231570814527423731704356798070567525844996598917476803157260780028538760589558632766878171540458953514382464234321326889464182768467546703537516986049910576551282076245490090389328944075868508455133942304583236903222948165808559332123348274797826204144723168738177180919299881250404026184124858368.0

  function Max(a: int, b: int): int
  {
    if a < b then b else a
  }

  function Min(a: int, b: int): int
  {
    if b < a then b else a
  }

  /** The hour in which a slot ends, rounded up at its first full minute. */
  function EndHour(slot: TimeSlot): int
  {
    HourOf(slot.end) + if MinuteOf(slot.end) > 0 then 1 else 0
  }

  predicate PassesHours(slot: TimeSlot, prefs: Preferences)
  {
    prefs.startHour <= HourOf(slot.start) && EndHour(slot) <= prefs.endHour
  }

  function Minutes(span: int): real
  {
    span as real / 60_000_000_000.0
  }

  /** 1 inside the preferred hours; else the share of the slot that whole-hour arithmetic puts inside. */
  function BusinessHours(slot: TimeSlot, prefs: Preferences): real
  {
    var withinStart := Max(HourOf(slot.start), prefs.startHour);
    var withinEnd := Min(EndHour(slot), prefs.endHour);
    if PassesHours(slot, prefs) then 1.0
    else if withinEnd <= withinStart then 0.0
    else ((withinEnd - withinStart) * 60) as real / Minutes(slot.end - slot.start)
  }

  /** How many of the whole hours from `from` on and before `upTo` are preferred hours. */
  function PreferredHours(from: int, upTo: int, prefs: Preferences): nat
    decreases upTo - from
  {
    if upTo <= from then 0
    else PreferredHours(from, upTo - 1, prefs) + if prefs.startHour <= upTo - 1 < prefs.endHour then 1 else 0
  }

  /** The whole preferred hours that a slot touches. */
  function CreditedHours(slot: TimeSlot, prefs: Preferences): nat
  {
    PreferredHours(HourOf(slot.start), EndHour(slot), prefs)
  }

  /** What a score says as the share of `hours` whole hours in a span: times the span it is those hours,
      and it exceeds 1 iff they are longer than the span. */
  ghost predicate IsShare(score: real, hours: nat, span: int)
  {
    && score * Minutes(span) == (60 * hours) as real
    && (hours == 0 ==> score == 0.0)
    && (span > 0 ==> score >= 0.0 && (score <= 1.0 <==> hours * HOUR <= span))
  }

  /** How many of the first n focus blocks a slot overlaps. */
  function BlocksHit(slot: TimeSlot, blocks: seq<FocusBlock>, n: nat): nat
    requires n <= |blocks|
  {
    if n == 0 then 0
    else
      var fb := blocks[n - 1];
      BlocksHit(slot, blocks, n - 1)
      + if HitsBlock(slot.start, slot.end, fb) then 1 else 0
  }

  /** No block hit: 1; one: a half; two or more: nothing. */
  function PreferenceScore(hits: nat): real
  {
    if hits == 0 then 1.0 else if hits == 1 then 0.5 else 0.0
  }

  function TimeOfDayScore(slot: TimeSlot, meetingType: MeetingType): real
  {
    var hour := HourOf(slot.start);
    match meetingType
    case Call30m => if 9 <= hour < 12 then 1.0 else if 12 <= hour < 14 then 0.7 else 0.5
    case Workshop2h => if 13 <= hour < 16 then 1.0 else if 10 <= hour < 13 then 0.7 else 0.5
    case OtherMeeting(_) => if 10 <= hour < 14 then 1.0 else if 9 <= hour < 16 then 0.8 else 0.6
  }

  function Distance(a: int, b: int): nat
  {
    if a < b then b - a else a - b
  }

  /** The smallest distance from an instant to one of the first n proposed times. */
  function Nearest(t: int, proposed: seq<int>, n: nat): nat
    requires 0 < n <= |proposed|
  {
    var d := Distance(t, proposed[n - 1]);
    if n == 1 then d else Min(Nearest(t, proposed, n - 1), d)
  }

  function Hours(span: int): real
  {
    span as real / 3_600_000_000_000.0
  }

  function ProximityScore(slot: TimeSlot, proposed: seq<int>): real
  {
    if proposed == [] then 0.5
    else
      var d := Hours(Nearest(slot.start, proposed, |proposed|));
      if d >= 24.0 then 0.0 else 1.0 - d / 24.0
  }

  function BreakdownOf(slot: TimeSlot, input: ScoreInput): Breakdown
  {
    Breakdown(
      BusinessHours(slot, input.prefs),
      PreferenceScore(BlocksHit(slot, input.prefs.focusBlocks, |input.prefs.focusBlocks|)),
      TimeOfDayScore(slot, input.meetingType),
      if input.attendees == [] then 1.0 else 0.49,
      ProximityScore(slot, input.proposedTimes))
  }

  function Weighted(b: Breakdown): real
  {
    b.businessHours * 0.25 + b.userPreference * 0.25 + b.timeOfDay * 0.20 + b.attendeeConfidence * 0.20
    + b.proximity * 0.10
  }

  function Scored(slot: TimeSlot, input: ScoreInput): ScoredSlot
  {
    var b := BreakdownOf(slot, input);
    ScoredSlot(slot, Weighted(b), b)
  }

  // --------------------------------------------------------------- methods

  /** 1 inside the preferred hours; outside, score times length is the credited time, so the score is at
      most 1 iff the preferred hours touched are no longer than the slot. */
  method ScoreBusinessHours(slot: TimeSlot, prefs: Preferences) returns (score: real)
    ensures score == BusinessHours(slot, prefs)
    ensures PassesHours(slot, prefs) ==> score == 1.0
    ensures !PassesHours(slot, prefs) ==> IsShare(score, CreditedHours(slot, prefs), slot.end - slot.start)
  {
    hide IsShare, CreditedHours, HourOf, MinuteOf;
    CreditIsExact(slot, prefs);
    var startHour, endHour := HourOf(slot.start), HourOf(slot.end);
    if MinuteOf(slot.end) > 0 {
      endHour := endHour + 1;
    }
    if startHour >= prefs.startHour && endHour <= prefs.endHour {
      return 1.0;
    }
    var totalMin := Minutes(slot.end - slot.start);
    var withinStart := Max(startHour, prefs.startHour);
    var withinEnd := Min(endHour, prefs.endHour);
    if withinEnd <= withinStart {
      return 0.0;
    }
    var withinMin := ((withinEnd - withinStart) * 60) as real;
    return withinMin / totalMin;
  }

  method ScorePreference(slot: TimeSlot, prefs: Preferences) returns (score: real)
    ensures score == PreferenceScore(BlocksHit(slot, prefs.focusBlocks, |prefs.focusBlocks|))
  {
    score := 1.0;
    var slotStartMin := HourOf(slot.start) * 60 + MinuteOf(slot.start);
    var slotEndMin := HourOf(slot.end) * 60 + MinuteOf(slot.end);
    for i := 0 to |prefs.focusBlocks|
      invariant score == 1.0 - 0.5 * BlocksHit(slot, prefs.focusBlocks, i) as real
    {
      var fb := prefs.focusBlocks[i];
      if fb.start.None? || fb.end.None? {
        continue;
      }
      if slotStartMin < fb.end.value && slotEndMin > fb.start.value {
        score := score - 0.5;
      }
    }
    if score < 0.0 {
      score := 0.0;
    }
  }

  method ScoreAttendeeConfidence(attendees: seq<string>) returns (score: real)
    ensures score == if attendees == [] then 1.0 else 0.49
  {
    if |attendees| == 0 {
      return 1.0;
    }
    var totalScore := 0.0;
    for i := 0 to |attendees|
      invariant totalScore == 0.49 * i as real
    {
      totalScore := totalScore + 0.49;
    }
    MeanOfEqual(0.49, |attendees|);
    return totalScore / |attendees| as real;
  }

  lemma MeanOfEqual(x: real, n: nat)
    requires n > 0
    ensures x * n as real / n as real == x
  {
  }

  method ScoreProximity(slot: TimeSlot, proposed: seq<int>) returns (score: real)
    ensures score == ProximityScore(slot, proposed)
  {
    if |proposed| == 0 {
      return 0.5;
    }
    var minDist := MAX_FLOAT64;
    for i := 0 to |proposed|
      invariant i == 0 ==> minDist == MAX_FLOAT64
      invariant i > 0 ==>
        var d := Hours(Nearest(slot.start, proposed, i));
        minDist == if d < MAX_FLOAT64 then d else MAX_FLOAT64
    {
      var dist := Hours(Distance(slot.start, proposed[i]));
      if dist < minDist {
        minDist := dist;
      }
    }
    if minDist >= 24.0 {
      return 0.0;
    }
    return 1.0 - minDist / 24.0;
  }

  /** The total is a weighted mean of the five components: it lies between any bounds they keep. */
  method ScoreSlot(slot: TimeSlot, input: ScoreInput) returns (scored: ScoredSlot)
    ensures scored == Scored(slot, input)
    ensures forall lo, hi :: Between(lo, scored.breakdown, hi) ==> lo <= scored.score <= hi
    ensures PassesHours(slot, input.prefs) ==> 0.0 <= scored.score <= 1.0
  {
    if PassesHours(slot, input.prefs) {
      FilteredScoreInUnitRange(slot, input);
    }
    var businessHours := ScoreBusinessHours(slot, input.prefs);
    var userPreference := ScorePreference(slot, input.prefs);
    var attendeeConfidence := ScoreAttendeeConfidence(input.attendees);
    var proximity := ScoreProximity(slot, input.proposedTimes);
    var bd := Breakdown(businessHours, userPreference, TimeOfDayScore(slot, input.meetingType),
                        attendeeConfidence, proximity);
    var total := bd.businessHours * 0.25 + bd.userPreference * 0.25 + bd.timeOfDay * 0.20
      + bd.attendeeConfidence * 0.20 + bd.proximity * 0.10;
    scored := ScoredSlot(slot, total, bd);
  }

  // ------------------------------------------------------------ properties

  /** The nearest proposed time is one of them, and none is nearer. */
  lemma {:induction false} NearestIsMinimum(t: int, proposed: seq<int>, n: nat)
    requires 0 < n <= |proposed|
    ensures exists k :: 0 <= k < n && Distance(t, proposed[k]) == Nearest(t, proposed, n)
    ensures forall k :: 0 <= k < n ==> Nearest(t, proposed, n) <= Distance(t, proposed[k])
  {
    if n > 1 {
      NearestIsMinimum(t, proposed, n - 1);
      var k :| 0 <= k < n - 1 && Distance(t, proposed[k]) == Nearest(t, proposed, n - 1);
      assert Distance(t, proposed[if Nearest(t, proposed, n) == Nearest(t, proposed, n - 1) then k else n - 1])
        == Nearest(t, proposed, n);
    } else {
      assert Distance(t, proposed[0]) == Nearest(t, proposed, n);
    }
  }

  /** What a component is worth: a quarter for each of the first two, a fifth for each of the next two, a
      tenth for the last; and a perfect slot scores 1. */
  lemma WeightsExact(b: Breakdown, d: real)
    ensures Weighted(b.(businessHours := b.businessHours + d)) == Weighted(b) + d / 4.0
    ensures Weighted(b.(userPreference := b.userPreference + d)) == Weighted(b) + d / 4.0
    ensures Weighted(b.(timeOfDay := b.timeOfDay + d)) == Weighted(b) + d / 5.0
    ensures Weighted(b.(attendeeConfidence := b.attendeeConfidence + d)) == Weighted(b) + d / 5.0
    ensures Weighted(b.(proximity := b.proximity + d)) == Weighted(b) + d / 10.0
    ensures Weighted(Breakdown(1.0, 1.0, 1.0, 1.0, 1.0)) == 1.0
  {
  }

  /** Calls belong in the morning, workshops in the early afternoon, other meetings around noon: where the full
      mark begins and ends, where the second-best does, and what is left outside. */
  lemma TimeOfDayExact(slot: TimeSlot, meetingType: MeetingType)
    ensures var score, hour := TimeOfDayScore(slot, meetingType), slot.start % 86_400_000_000_000 / 3_600_000_000_000;
      match meetingType
      case Call30m =>
        && score in {1.0, 0.7, 0.5} && (score == 1.0 <==> 9 <= hour <= 11) && (score >= 0.7 <==> 9 <= hour <= 13)
      case Workshop2h =>
        && score in {1.0, 0.7, 0.5} && (score == 1.0 <==> 13 <= hour <= 15) && (score >= 0.7 <==> 10 <= hour <= 15)
      case OtherMeeting(_) =>
        && score in {1.0, 0.8, 0.6} && (score == 1.0 <==> 10 <= hour <= 13) && (score >= 0.8 <==> 9 <= hour <= 15)
  {
  }

  /** The proximity score is the best that any proposed time gives, and a time gives 1 at its own instant and
      loses 1 in 24 hours, but no more. */
  lemma ProximityExact(slot: TimeSlot, proposed: seq<int>)
    ensures proposed == [] ==> ProximityScore(slot, proposed) == 0.5
    ensures proposed != [] ==>
      var score := ProximityScore(slot, proposed);
      && score >= 0.0 && (forall k :: 0 <= k < |proposed| ==> score >= 1.0 - Nearness(slot, proposed[k]))
      && (score == 0.0 || exists k :: 0 <= k < |proposed| && score == 1.0 - Nearness(slot, proposed[k]))
  {
    var n := |proposed|;
    if n > 0 {
      NearestIsMinimum(slot.start, proposed, n);
      var m :| 0 <= m < n && Distance(slot.start, proposed[m]) == Nearest(slot.start, proposed, n);
      assert Nearness(slot, proposed[m]) == Hours(Nearest(slot.start, proposed, n)) / 24.0;
    }
  }

  /** The distance in days. */
  function Nearness(slot: TimeSlot, t: int): real
  {
    (if slot.start < t then t - slot.start else slot.start - t) as real / 86_400_000_000_000.0
  }

  ghost function HitAmong(slot: TimeSlot, blocks: seq<FocusBlock>, n: nat): set<nat>
    requires n <= |blocks|
  {
    set i: nat | i < n && HitsBlock(slot.start, slot.end, blocks[i])
  }

  /** The hits are counted block by block: the preference score is 1 less a half for each of the first two
      focus blocks that the slot overlaps by the detector's own test. */
  lemma {:induction false} BlocksHitExact(slot: TimeSlot, blocks: seq<FocusBlock>, n: nat)
    requires n <= |blocks|
    ensures BlocksHit(slot, blocks, n) == |HitAmong(slot, blocks, n)|
    ensures var hits := |HitAmong(slot, blocks, n)|;
      PreferenceScore(BlocksHit(slot, blocks, n)) == if hits >= 2 then 0.0 else 1.0 - hits as real / 2.0
  {
    hide HitsBlock;
    if n > 0 {
      BlocksHitExact(slot, blocks, n - 1);
      if HitsBlock(slot.start, slot.end, blocks[n - 1]) {
        assert HitAmong(slot, blocks, n) == HitAmong(slot, blocks, n - 1) + {n - 1};
      } else {
        assert HitAmong(slot, blocks, n) == HitAmong(slot, blocks, n - 1);
      }
    }
  }

  lemma {:induction false} PreferredHoursIs(from: int, upTo: int, prefs: Preferences)
    ensures PreferredHours(from, upTo, prefs) == Max(0, Min(upTo, prefs.endHour) - Max(from, prefs.startHour))
    decreases upTo - from
  {
    if from < upTo {
      PreferredHoursIs(from, upTo - 1, prefs);
    }
  }

  lemma NoCreditForNoTime(slot: TimeSlot, prefs: Preferences)
    requires slot.start == slot.end && !PassesHours(slot, prefs)
    ensures CreditedHours(slot, prefs) == 0
  {
    PreferredHoursIs(HourOf(slot.start), EndHour(slot), prefs);
  }

  lemma RatioIsShare(hours: nat, span: int)
    requires span != 0
    ensures IsShare((60 * hours) as real / Minutes(span), hours, span)
  {
    var ratio, length := (60 * hours) as real / Minutes(span), Minutes(span);
    assert ratio * length == (60 * hours) as real;
    assert span > 0 && ratio <= 1.0 ==> ratio * length <= length;
    assert span > 0 && ratio > 1.0 ==> ratio * length > length;
  }

  /** The partial credit is the share of the preferred hours touched. */
  lemma CreditIsExact(slot: TimeSlot, prefs: Preferences)
    ensures !PassesHours(slot, prefs) ==>
      IsShare(BusinessHours(slot, prefs), CreditedHours(slot, prefs), slot.end - slot.start)
  {
    hide HourOf, MinuteOf, EndHour, Minutes;
    PreferredHoursIs(HourOf(slot.start), EndHour(slot), prefs);
    if slot.start == slot.end {
      if !PassesHours(slot, prefs) {
        NoCreditForNoTime(slot, prefs);
      }
    } else {
      RatioIsShare(CreditedHours(slot, prefs), slot.end - slot.start);
      ZeroShare(slot.end - slot.start);
    }
  }

  lemma ZeroShare(span: int)
    ensures IsShare(0.0, 0, span)
  {
  }

  predicate Between(lo: real, b: Breakdown, hi: real)
  {
    && lo <= b.businessHours <= hi && lo <= b.userPreference <= hi && lo <= b.timeOfDay <= hi
    && lo <= b.attendeeConfidence <= hi && lo <= b.proximity <= hi
  }

  /** The other four components stay between 0 and 1 in any case. */
  lemma OthersInUnitRange(slot: TimeSlot, input: ScoreInput)
    ensures var b := BreakdownOf(slot, input);
      Between(0.0, b.(businessHours := 0.0), 1.0)
  {
  }

  /** A slot that passes the hour filter has business-hours component 1 and total score in [0, 1],
      whatever the focus blocks, attendees and proposed times. */
  lemma FilteredScoreInUnitRange(slot: TimeSlot, input: ScoreInput)
    requires PassesHours(slot, input.prefs)
    ensures Scored(slot, input).breakdown.businessHours == 1.0
    ensures 0.0 <= Scored(slot, input).score <= 1.0
  {
    OthersInUnitRange(slot, input);
  }

  /** Without the filter the component stays within [0, 1] iff the preferred hours touched are no longer
      than the slot, and then so does the total. */
  lemma UnfilteredScoreExactly(slot: TimeSlot, input: ScoreInput)
    requires slot.start < slot.end && !PassesHours(slot, input.prefs)
    ensures 0.0 <= Scored(slot, input).breakdown.businessHours <= 1.0 <==>
      CreditedHours(slot, input.prefs) * HOUR <= slot.end - slot.start
    ensures CreditedHours(slot, input.prefs) * HOUR <= slot.end - slot.start ==> 0.0 <= Scored(slot, input).score <= 1.0
  {
    CreditIsExact(slot, input.prefs);
    OthersInUnitRange(slot, input);
  }

  /** Otherwise the total can exceed 1: 08:45-09:15 earns a business-hours component of 2, because
      partial credit is counted in whole hours, and a score above 1. */
  lemma UnfilteredScoreExceedsOne(input: ScoreInput)
    requires input.prefs.startHour == 9 && input.prefs.endHour == 18
    requires input.prefs.focusBlocks == [] && input.attendees == [] && input.proposedTimes == []
    ensures var slot := TimeSlot(At(0, 8) + 45 * MINUTE, At(0, 9) + 15 * MINUTE);
      !PassesHours(slot, input.prefs) && BusinessHours(slot, input.prefs) == 2.0 && Scored(slot, input).score > 1.0
  {
  }
}
