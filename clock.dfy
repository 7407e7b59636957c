/** Instants on the America/Santiago civil clock, the day-granularity
    classification of a holiday date against "now" (past, today, future,
    days until) and the hour countdown that several components show.  The
    current time is always a parameter. */
module Clock {
  import opened CivilDate

  datatype Moment = Moment(date: Date, minute: int)

  /** A civil date and the minutes elapsed since its midnight. */
  type Instant = t: Moment | 0 <= t.minute < 1440 witness Moment(YMD(1970, 1, 1), 0)

  /** Minutes since 1970-01-01 00:00 on the civil clock. */
  function Minutes(t: Instant): int
  {
    DayNumber(t.date) * 1440 + t.minute
  }

  /** The instant a date string "YYYY-MM-DD" is parsed to: its midnight. */
  function Midnight(d: Date): (t: Instant)
    ensures t.date == d && Minutes(t) == DayNumber(d) * 1440
  {
    Moment(d, 0)
  }

  /** `a.isBefore(b)` on instants. */
  predicate InstantBefore(a: Instant, b: Instant)
  {
    Minutes(a) < Minutes(b)
  }

  /** The instant order refines the date order: an earlier date means an
      earlier instant, whatever the times of day. */
  lemma InstantOrderFollowsDates(a: Instant, b: Instant)
    ensures Before(a.date, b.date) ==> InstantBefore(a, b)
    ensures InstantBefore(a, b) ==> SameOrBefore(a.date, b.date)
  {
    BeforeIffDayNumber(a.date, b.date);
  }

  /** Whole hours in a span of minutes, truncated toward zero, as dayjs
      `diff(_, 'hour')` truncates. */
  function WholeHours(minutes: int): (h: int)
    ensures minutes >= 0 ==> 0 <= h * 60 <= minutes < h * 60 + 60
    ensures minutes < 0 ==> h * 60 - 60 < minutes <= h * 60 <= 0
  {
    if minutes >= 0 then minutes / 60 else -((-minutes) / 60)
  }

  /** `dayjs(date).diff(now, 'hour')` for a holiday dated `d`. */
  function HoursUntil(d: Date, now: Instant): int
  {
    WholeHours(Minutes(Midnight(d)) - Minutes(now))
  }

  datatype Countdown = Countdown(days: int, hours: int)

  /** getCountdown's arithmetic: a negative difference shows zero; otherwise
      the difference is split into whole days and the remaining hours. */
  function CountdownOf(diff: int): (c: Countdown)
    ensures diff < 0 ==> c == Countdown(0, 0)
    ensures diff >= 0 ==> c.days >= 0 && 0 <= c.hours < 24 && c.days * 24 + c.hours == diff
  {
    if diff < 0 then Countdown(0, 0) else Countdown(diff / 24, diff % 24)
  }

  function GetCountdown(d: Date, now: Instant): Countdown
  {
    CountdownOf(HoursUntil(d, now))
  }

  /** The split is the only one with hours below a day: any other way of
      writing a non-negative difference as days and hours is this one. */
  lemma CountdownUnique(diff: int, days: int, hours: int)
    requires diff >= 0 && 0 <= hours < 24 && days * 24 + hours == diff
    ensures CountdownOf(diff) == Countdown(days, hours)
  {
  }

  /** Once the holiday's midnight has been reached the countdown stays at zero. */
  lemma CountdownZeroOnceStarted(d: Date, now: Instant)
    requires !InstantBefore(now, Midnight(d))
    ensures GetCountdown(d, now) == Countdown(0, 0)
  {
  }

  /** Before the holiday the countdown is exactly the whole hours left. */
  lemma CountdownBeforeHoliday(d: Date, now: Instant)
    requires InstantBefore(now, Midnight(d))
    ensures var c := GetCountdown(d, now);
      c.days * 24 + c.hours == (Minutes(Midnight(d)) - Minutes(now)) / 60 && 0 <= c.hours < 24
  {
  }

  /** `isPastDate`: the date's civil day is strictly before today's. */
  predicate IsPastDate(d: Date, now: Instant)
  {
    Before(d, now.date)
  }

  /** `isCurrentDate` / `isToday`: the same civil day as now. */
  predicate IsToday(d: Date, now: Instant)
  {
    d == now.date
  }

  /** `isFutureDate`: the date's civil day is strictly after today's. */
  predicate IsFutureDate(d: Date, now: Instant)
  {
    Before(now.date, d)
  }

  /** Every date is exactly one of past, today and future. */
  lemma ExactlyOneDayClass(d: Date, now: Instant)
    ensures IsPastDate(d, now) || IsToday(d, now) || IsFutureDate(d, now)
    ensures !(IsPastDate(d, now) && IsToday(d, now))
    ensures !(IsPastDate(d, now) && IsFutureDate(d, now))
    ensures !(IsToday(d, now) && IsFutureDate(d, now))
  {
    Trichotomy(d, now.date);
  }

  /** `getDaysUntil`: whole days between today's midnight and the date's. */
  function DaysUntil(d: Date, now: Instant): int
  {
    DayNumber(d) - DayNumber(now.date)
  }

  /** The sign of the days until a date tells its day class. */
  lemma DaysUntilSign(d: Date, now: Instant)
    ensures DaysUntil(d, now) > 0 <==> IsFutureDate(d, now)
    ensures DaysUntil(d, now) == 0 <==> IsToday(d, now)
    ensures DaysUntil(d, now) < 0 <==> IsPastDate(d, now)
  {
    BeforeIffDayNumber(d, now.date);
    BeforeIffDayNumber(now.date, d);
  }

  /** Today is zero days away, and a target one day later is one day further. */
  lemma DaysUntilSteps(d: Date, now: Instant)
    ensures DaysUntil(now.date, now) == 0
    ensures DaysUntil(NextDay(d), now) == DaysUntil(d, now) + 1
  {
    DayNumberNextDay(d);
  }

  /** FullCalendar's `isDatePassed`: the date's midnight is before now. */
  predicate DatePassed(d: Date, now: Instant)
  {
    InstantBefore(Midnight(d), now)
  }

  /** Passed compares instants, not days: every past day has passed, a passed
      date is past or today, and today has passed unless it is exactly
      midnight. */
  lemma DatePassedVersusPast(d: Date, now: Instant)
    ensures IsPastDate(d, now) ==> DatePassed(d, now)
    ensures DatePassed(d, now) ==> IsPastDate(d, now) || IsToday(d, now)
    ensures IsToday(d, now) ==> (DatePassed(d, now) <==> now.minute > 0)
  {
    InstantOrderFollowsDates(Midnight(d), now);
  }

  /** Weekends come as Saturday followed by Sunday: a day and the next are
      both weekend days exactly when the first is a Saturday. */
  lemma WeekendPairs(d: Date)
    ensures IsWeekend(d) && IsWeekend(NextDay(d)) <==> Weekday(d) == 6
  {
    WeekdayNextDay(d);
  }
}
