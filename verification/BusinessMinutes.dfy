/** Business time between two instants, counted from 09:00 to 18:00 on weekdays. */
module BusinessMinutes {
  import opened LocalClock

  const BUSINESS_START: int := 9
  const BUSINESS_END: int := 18

  predicate IsWeekend(day: int)
  {
    WeekdayOfDay(day) == SUNDAY || WeekdayOfDay(day) == SATURDAY
  }

  predicate IsBusiness(t: int)
  {
    !IsWeekend(DayOf(t)) && At(DayOf(t), BUSINESS_START) <= t < At(DayOf(t), BUSINESS_END)
  }

  /** The reference: how many of the instants in [a, b) fall in business time. */
  ghost function BusinessTime(a: int, b: int): nat
    decreases b - a
  {
    if a >= b then 0 else BusinessTime(a, b - 1) + if IsBusiness(b - 1) then 1 else 0
  }

  ghost function InMinutes(t: int): real
  {
    t as real / 60_000_000_000.0
  }

  function Max(a: int, b: int): int
  {
    if a < b then b else a
  }

  function Min(a: int, b: int): int
  {
    if b < a then b else a
  }

  /** The part of one day's business window that lies in [a, b). */
  function Window(day: int, a: int, b: int): nat
  {
    if IsWeekend(day) then 0
    else Max(0, Min(b, At(day, BUSINESS_END)) - Max(a, At(day, BUSINESS_START)))
  }

  /** The day-walking loop. Between two iterations everything before `current` is accounted for. */
  method BusinessMinutesBetween(start: int, end: int) returns (totalMinutes: real)
    ensures totalMinutes == InMinutes(BusinessTime(start, end))
  {
    if end < start {
      return 0.0;
    }
    totalMinutes := 0.0;
    var current := start;
    while current < end
      invariant start <= end && start <= current
      invariant totalMinutes == InMinutes(BusinessTime(start, Min(current, end)))
      decreases end - current
    {
      var day := DayOf(current);
      var next := At(day + 1, BUSINESS_START);
      DayStep(current, end);
      Additive(start, current, Min(next, end));
      if Weekday(current) == SATURDAY || Weekday(current) == SUNDAY {
        current := next;
        continue;
      }
      var dayStart, dayEnd := At(day, BUSINESS_START), At(day, BUSINESS_END);
      var effectiveStart := current;
      if effectiveStart < dayStart {
        effectiveStart := dayStart;
      }
      if effectiveStart >= dayEnd {
        current := next;
        continue;
      }
      var effectiveEnd := end;
      if effectiveEnd > dayEnd {
        effectiveEnd := dayEnd;
      }
      if effectiveEnd > effectiveStart {
        totalMinutes := totalMinutes + (effectiveEnd - effectiveStart) as real / 60_000_000_000.0;
      }
      current := next;
    }
  }

  // --------------------------------------------------------------- algebra

  /** Splitting an interval anywhere loses and gains nothing. */
  lemma {:induction false} Additive(a: int, b: int, c: int)
    requires a <= b <= c
    ensures BusinessTime(a, c) == BusinessTime(a, b) + BusinessTime(b, c)
    decreases c - b
  {
    if b < c {
      Additive(a, b, c - 1);
    }
  }

  /** Moving the end later, or the start earlier, never lowers the result. */
  lemma Monotone(a: int, b: int, c: int, d: int)
    requires a <= b <= c <= d
    ensures BusinessTime(b, c) <= BusinessTime(a, d)
  {
    Additive(a, b, d);
    Additive(b, c, d);
  }

  lemma {:induction false} AtMostElapsed(a: int, b: int)
    requires a <= b
    ensures BusinessTime(a, b) <= b - a
    decreases b - a
  {
    if a < b {
      AtMostElapsed(a, b - 1);
    }
  }

  lemma {:induction false} AllBusiness(a: int, b: int)
    requires a <= b && forall t :: a <= t < b ==> IsBusiness(t)
    ensures BusinessTime(a, b) == b - a
    decreases b - a
  {
    if a < b {
      AllBusiness(a, b - 1);
      assert IsBusiness(b - 1);
    }
  }

  lemma {:induction false} NoBusiness(a: int, b: int)
    requires forall t :: a <= t < b ==> !IsBusiness(t)
    ensures BusinessTime(a, b) == 0
    decreases b - a
  {
    if a < b {
      NoBusiness(a, b - 1);
      assert !IsBusiness(b - 1);
    }
  }

  // -------------------------------------------------------------- one day

  lemma DayFacts(day: int, t: int)
    ensures At(day, 0) <= t < At(day + 1, 0) <==> DayOf(t) == day
    ensures At(day, 24) == At(day + 1, 0)
  {
  }

  /** Inside one day, the business time is the overlap with that day's window. */
  lemma OneDay(day: int, a: int, b: int)
    requires At(day, 0) <= a <= b <= At(day + 1, 0)
    ensures BusinessTime(a, b) == Window(day, a, b)
  {
    var from, to := At(day, BUSINESS_START), At(day, BUSINESS_END);
    forall t | a <= t < b ensures DayOf(t) == day {
      DayFacts(day, t);
    }
    if IsWeekend(day) || b <= from || to <= a {
      NoBusiness(a, b);
    } else {
      var lo, hi := Max(a, from), Min(b, to);
      NoBusiness(a, lo);
      AllBusiness(lo, hi);
      NoBusiness(hi, b);
      Additive(a, lo, b);
      Additive(lo, hi, b);
    }
  }

  /** From any instant to 09:00 on the next day: only the rest of this day's window counts. */
  lemma DayStep(current: int, end: int)
    requires current < end
    ensures var day := DayOf(current);
      current < At(day + 1, BUSINESS_START) &&
      BusinessTime(current, Min(At(day + 1, BUSINESS_START), end)) == Window(day, current, end)
  {
    var day := DayOf(current);
    DayFacts(day, current);
    var midnight, stop := At(day + 1, 0), Min(At(day + 1, BUSINESS_START), end);
    if stop <= midnight {
      OneDay(day, current, stop);
    } else {
      OneDay(day, current, midnight);
      OneDay(day + 1, midnight, stop);
      Additive(current, midnight, stop);
    }
  }

  /** Business time is from 9 to 18 o'clock, from Monday, day 1 of the week, to Friday, day 5. */
  lemma BusinessIsNineToSix(t: int)
    ensures IsBusiness(t) <==>
      1 <= (t / 86_400_000_000_000 + 4) % 7 <= 5 && 32_400_000_000_000 <= t % 86_400_000_000_000 < 64_800_000_000_000
  {
  }

  /** A whole day has nine hours, 540 minutes, of it, or none. */
  lemma WholeDay(day: int)
    ensures InMinutes(BusinessTime(At(day, 0), At(day + 1, 0))) == if 1 <= (day + 4) % 7 <= 5 then 540.0 else 0.0
  {
    OneDay(day, At(day, 0), At(day + 1, 0));
  }

  // ---------------------------------------------------------- sum over days

  function WindowSum(first: int, last: int, a: int, b: int): nat
    decreases last - first
  {
    if last < first then 0 else WindowSum(first, last - 1, a, b) + Window(last, a, b)
  }

  lemma {:induction false} PrefixSum(first: int, last: int, a: int, b: int)
    requires At(first, 0) <= a < At(first + 1, 0) && a <= b && first - 1 <= last
    ensures WindowSum(first, last, a, b) == BusinessTime(a, Max(a, Min(b, At(last + 1, 0))))
    decreases last - first
  {
    if first <= last {
      PrefixSum(first, last - 1, a, b);
      var from, to := Max(a, At(last, 0)), Max(a, Min(b, At(last + 1, 0)));
      if from <= to {
        OneDay(last, from, to);
        assert Window(last, from, to) == Window(last, a, b);
        Additive(a, from, to);
      } else {
        assert Window(last, a, b) == 0;
      }
    }
  }

  /** The total is the sum, over all calendar days from start to end, of each weekday window's
      intersection with [start, end). */
  lemma PerDaySum(a: int, b: int)
    requires a <= b
    ensures BusinessTime(a, b) == WindowSum(DayOf(a), DayOf(b), a, b)
  {
    DayFacts(DayOf(a), a);
    DayFacts(DayOf(b), b);
    PrefixSum(DayOf(a), DayOf(b), a, b);
  }

  function Weekdays(first: int, last: int): nat
    decreases last - first
  {
    if last < first then 0 else Weekdays(first, last - 1) + if IsWeekend(last) then 0 else 1
  }

  lemma {:induction false} WindowSumBound(first: int, last: int, a: int, b: int)
    ensures WindowSum(first, last, a, b) <= 9 * HOUR * Weekdays(first, last)
    decreases last - first
  {
    if first <= last {
      WindowSumBound(first, last - 1, a, b);
    }
  }

  /** At most 540 minutes for each weekday touched. */
  lemma AtMostNineHoursPerWeekday(a: int, b: int)
    requires a <= b
    ensures BusinessTime(a, b) <= 540 * MINUTE * Weekdays(DayOf(a), DayOf(b))
  {
    PerDaySum(a, b);
    WindowSumBound(DayOf(a), DayOf(b), a, b);
  }
}
