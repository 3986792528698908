/**
 * Calendar dates as the report uses them. Every date in the source comes from
 * parsing a "02/Jan/06" text, which yields midnight UTC of that day, so a date is
 * fully described by its year and its day within the year. Dates are compared
 * and subtracted through their day number, counted from 1 January of year 1 —
 * the instant Go calls the zero time, which a failed parse leaves behind.
 */
module Calendar {

  /**
   * Midnight UTC of the day numbered `day` (days since the zero time), which
   * falls in the proleptic Gregorian calendar year `year`.
   */
  datatype Date = Date(day: int, year: int)

  /** The zero time: 1 January of year 1, the value left by a failed parse. */
  const ZeroTime: Date := Date(0, 1)

  /** Number of days from the zero time to 1 January of year `y`. */
  function DaysBeforeYear(y: int): int
  {
    var p := y - 1;
    365 * p + p / 4 - p / 100 + p / 400
  }

  /** A date whose day number lies within its year, as every parsed date does. */
  predicate ValidDate(d: Date)
  {
    DaysBeforeYear(d.year) <= d.day < DaysBeforeYear(d.year + 1)
  }

  /** A date as a successful parse yields it: its day number lies within its year. */
  type CalendarDate = d: Date | ValidDate(d) witness Date(0, 1)

  /** Days elapsed from the zero time to `d`. */
  function DayNumber(d: Date): int
  {
    d.day
  }

  /** Each year is at least 364 days long (it is 365 or 366). */
  lemma YearIsLong(y: int)
    ensures DaysBeforeYear(y) + 364 <= DaysBeforeYear(y + 1)
  {
    var p := y - 1;
    NextQuotient4(p);
    NextQuotient100(p);
    NextQuotient400(p);
  }

  // Stepping the dividend by one raises the quotient exactly when it reaches a multiple.

  lemma NextQuotient4(p: int)
    ensures (p + 1) / 4 == p / 4 + (if (p + 1) % 4 == 0 then 1 else 0)
  {
  }

  lemma NextQuotient100(p: int)
    ensures (p + 1) / 100 == p / 100 + (if (p + 1) % 100 == 0 then 1 else 0)
  {
  }

  lemma NextQuotient400(p: int)
    ensures (p + 1) / 400 == p / 400 + (if (p + 1) % 400 == 0 then 1 else 0)
  {
  }

  /** Years start in increasing order: year `y1` starts before any later year `y2`. */
  lemma {:induction false} YearStartsIncrease(y1: int, y2: int)
    requires y1 < y2
    ensures DaysBeforeYear(y1 + 1) <= DaysBeforeYear(y2)
    decreases y2 - y1
  {
    if y1 + 1 < y2 {
      YearIsLong(y1 + 1);
      YearStartsIncrease(y1 + 1, y2);
    }
  }

  /** Every valid date of one year lies before every valid date of a later year. */
  lemma YearsAreOrdered(d1: Date, d2: Date)
    requires ValidDate(d1) && ValidDate(d2)
    requires d1.year < d2.year
    ensures DayNumber(d1) < DayNumber(d2)
  {
    YearStartsIncrease(d1.year, d2.year);
  }

  /**
   * Go's time.Duration is a signed 64-bit count of nanoseconds and Time.Sub
   * saturates at its extremes; 2^63 - 1 nanoseconds is 106751 whole days and
   * a little more, so a saturated difference reads as 106751 days.
   */
  const MaxDurationDays: int := 106751

  /**
   * Whole days from `created` to `event`: `event.Sub(created).Hours() / 24`
   * truncated to an integer. Both are midnights, so the quotient is exact,
   * negative when the event precedes creation, and saturated only when the
   * dates are more than 292 years apart.
   */
  function LatencyDays(event: Date, created: Date): (r: int)
    ensures -MaxDurationDays <= r <= MaxDurationDays
    ensures r > 0 <==> DayNumber(created) < DayNumber(event)
    ensures r < 0 <==> DayNumber(event) < DayNumber(created)
    ensures -MaxDurationDays <= DayNumber(event) - DayNumber(created) <= MaxDurationDays
            ==> r == DayNumber(event) - DayNumber(created)
  {
    var days := DayNumber(event) - DayNumber(created);
    if days > MaxDurationDays then MaxDurationDays
    else if days < -MaxDurationDays then -MaxDurationDays
    else days
  }

  /**
   * A creation date that failed to parse is the zero time; against an event of
   * 2022 the difference is about 2021 years, so the latency saturates.
   */
  lemma UnparsedCreationSaturates(event: Date)
    requires ValidDate(event) && event.year == 2022
    ensures LatencyDays(event, ZeroTime) == MaxDurationDays
  {
    assert DaysBeforeYear(2022) == 738155;
  }
}
