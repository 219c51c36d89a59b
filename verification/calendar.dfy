/** Clock values as integers. The service reads `datetime.utcnow()` and
    `date.today()`; here the current instant is always a parameter. */
module Calendar {

  /** Whole seconds since 1970-01-01T00:00:00 UTC; the service's clock also
      carries microseconds, which are not modelled. */
  type Instant = int

  /** Days since 1970-01-01 (a `date`). */
  type Day = int

  const SecondsPerDay: int := 86_400

  /** The calendar day an instant falls on. */
  function DayOf(t: Instant): (d: Day)
    ensures d * SecondsPerDay <= t < (d + 1) * SecondsPerDay
  {
    t / SecondsPerDay
  }

  /** `(later - earlier).days` of two datetimes: whole days, rounded down. */
  function WholeDaysBetween(earlier: Instant, later: Instant): (n: int)
    ensures n * SecondsPerDay <= later - earlier < (n + 1) * SecondsPerDay
  {
    (later - earlier) / SecondsPerDay
  }

  /** The proleptic Gregorian year of a day number (`date.year`), by the
      usual era / year-of-era decomposition of the civil calendar. */
  function YearOf(d: Day): int
  {
    var z := d + 719_468;
    var era := z / 146_097;
    var doe := z - era * 146_097;
    var yoe := (doe - doe / 1_460 + doe / 36_524 - doe / 146_096) / 365;
    var doy := doe - (365 * yoe + yoe / 4 - yoe / 100);
    var mp := (5 * doy + 2) / 153;
    yoe + era * 400 + (if mp >= 10 then 1 else 0)
  }

  /** `YearOf` at a day whose intermediate values are given. */
  lemma YearOfSteps(d: Day, era: int, doe: int, yoe: int, doy: int, mp: int)
    requires era == (d + 719_468) / 146_097 && doe == d + 719_468 - era * 146_097
    requires yoe == (doe - doe / 1_460 + doe / 36_524 - doe / 146_096) / 365
    requires doy == doe - (365 * yoe + yoe / 4 - yoe / 100) && mp == (5 * doy + 2) / 153
    ensures YearOf(d) == yoe + era * 400 + (if mp >= 10 then 1 else 0)
  {
  }

  /** The year turns over at 1 January, including at and before the epoch,
      and a 29 February belongs to its own year: leap in 2024 and 2000. */
  lemma YearOfExamples()
    ensures YearOf(-1) == 1969 && YearOf(0) == 1970
    ensures YearOf(19722) == 2023 && YearOf(19723) == 2024
    ensures YearOf(19782) == 2024 && YearOf(19783) == 2024
    ensures YearOf(11016) == 2000 && YearOf(11322) == 2000 && YearOf(11323) == 2001
  {
    YearOfSteps(-1, 4, 135079, 369, 305, 9);
    YearOfSteps(0, 4, 135080, 369, 306, 10);
    YearOfSteps(19722, 5, 8705, 23, 305, 9);
    YearOfSteps(19723, 5, 8706, 23, 306, 10);
    YearOfSteps(19782, 5, 8765, 23, 365, 11);
    YearOfSteps(19783, 5, 8766, 24, 0, 0);
    YearOfSteps(11016, 4, 146096, 399, 365, 11);
    YearOfSteps(11322, 5, 305, 0, 305, 9);
    YearOfSteps(11323, 5, 306, 0, 306, 10);
  }
}
