/** Wall-clock time in a zone with a fixed offset: an instant is the integer number of nanoseconds
    since 1970-01-01 00:00 local time, a Thursday. */
module LocalClock {
  const MINUTE: int := 60_000_000_000
  const HOUR: int := 3_600_000_000_000
  const DAY: int := 86_400_000_000_000

  const SUNDAY: int := 0
  const SATURDAY: int := 6

  function DayOf(t: int): int
  {
    t / 86_400_000_000_000
  }

  /** Nanoseconds since local midnight. */
  function TimeOfDay(t: int): int
  {
    t % 86_400_000_000_000
  }

  function WeekdayOfDay(d: int): int
  {
    (d + 4) % 7
  }

  function Weekday(t: int): int
  {
    WeekdayOfDay(DayOf(t))
  }

  function HourOf(t: int): int
  {
    TimeOfDay(t) / 3_600_000_000_000
  }

  function MinuteOf(t: int): int
  {
    TimeOfDay(t) % 3_600_000_000_000 / 60_000_000_000
  }

  /** The instant at a whole hour of a day; hours past 23 run on into the next days. */
  function At(day: int, hour: int): int
  {
    day * 86_400_000_000_000 + hour * 3_600_000_000_000
  }
}
