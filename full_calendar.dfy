/** The full holiday calendar: the `/api/fullCalendar` object maps a
    "month year" heading to its days, and each day is drawn as a cell whose
    shade says holiday, weekend or plain, faded once its midnight has
    passed, labelled with the day of the month and a weekday letter. */
module FullCalendar {
  import opened Wrappers
  import opened Text
  import opened CivilDate
  import opened Clock
  import opened Names
  import opened Holidays

  /** A day as the endpoint sends it: the weekday number and weekend flag
      are the server's, not derived here. */
  datatype CalendarDay = CalendarDay(date: Date, dayOfWeek: int, holiday: Option<Holiday>, isWeekend: bool)

  /** The response body, read as its entries in key order. */
  type CalendarData = seq<(string, seq<CalendarDay>)>

  /** The response: its `ok` flag and the body (`None` when it is not JSON). */
  datatype CalendarResponse = CalendarResponse(ok: bool, body: Option<CalendarData>)

  /** `formatDate(date, dayOfWeek)`: `${day} ${weekdays[dayOfWeek]}`. */
  function FormatDate(d: Date, dayOfWeek: int): string
  {
    NatToString(d.day) + " " + WeekdayLetter(dayOfWeek)
  }

  /** In digits followed by a space, the first space is the one after the digits. */
  lemma FirstSpace(a: string, b: string)
    requires forall i :: 0 <= i < |a| ==> IsDigit(a[i])
    ensures (a + " " + b)[|a|] == ' '
    ensures forall i :: 0 <= i < |a| ==> (a + " " + b)[i] != ' '
  {
  }

  /** Digits followed by a space split back uniquely. */
  lemma DigitsSpaceSplit(a1: string, b1: string, a2: string, b2: string)
    requires forall i :: 0 <= i < |a1| ==> IsDigit(a1[i])
    requires forall i :: 0 <= i < |a2| ==> IsDigit(a2[i])
    requires a1 + " " + b1 == a2 + " " + b2
    ensures a1 == a2 && b1 == b2
  {
    var s1, s2 := a1 + " " + b1, a2 + " " + b2;
    FirstSpace(a1, b1);
    FirstSpace(a2, b2);
    assert s1[..|a1|] == a1 && s2[..|a2|] == a2;
    assert s1[|a1| + 1..] == b1 && s2[|a2| + 1..] == b2;
  }

  /** The label gives back what it shows: the day of the month and, for a
      weekday number in range, that number. */
  lemma FormatDateDetermines(d1: Date, w1: int, d2: Date, w2: int)
    requires 0 <= w1 < 7 && 0 <= w2 < 7
    ensures FormatDate(d1, w1) == FormatDate(d2, w2) <==> d1.day == d2.day && w1 == w2
  {
    if FormatDate(d1, w1) == FormatDate(d2, w2) {
      DigitsSpaceSplit(NatToString(d1.day), WeekdayLetter(w1), NatToString(d2.day), WeekdayLetter(w2));
      NatToStringInjective(d1.day, d2.day);
    }
  }

  /** With the date's own weekday number, the letter is D for Sunday through
      S for Saturday. */
  lemma FormatDateOfWeekday(d: Date)
    ensures var s := FormatDate(d, Weekday(d));
      s[|s| - 1..] == ["D", "L", "M", "X", "J", "V", "S"][Weekday(d)]
      && (Weekday(d) == 0 ==> s[|s| - 1] == 'D')
  {
    var s := FormatDate(d, Weekday(d));
    assert s[|s| - 1..] == WeekdayLetter(Weekday(d));
  }

  /** The cell background. */
  datatype Shade = HolidayShade | WeekendShade | PlainShade

  /** `day.holiday ? 'bg-yellow-100' : day.isWeekend ? 'bg-gray-100' : 'bg-white'`. */
  function ShadeOf(day: CalendarDay): Shade
  {
    if day.holiday.Some? then HolidayShade
    else if day.isWeekend then WeekendShade
    else PlainShade
  }

  /** A holiday wins over a weekend, and only a day that is neither is
      plain. */
  lemma ShadingPrecedence(day: CalendarDay)
    ensures ShadeOf(day) == HolidayShade <==> day.holiday.Some?
    ensures ShadeOf(day) == WeekendShade <==> day.holiday.None? && day.isWeekend
    ensures ShadeOf(day) == PlainShade <==> day.holiday.None? && !day.isWeekend
  {
  }

  /** A drawn cell: its shade, whether its text is greyed out, its caption and
      the holiday name under it. */
  datatype Cell = Cell(shade: Shade, faded: bool, caption: string, holidayName: Option<string>)

  function CellOf(day: CalendarDay, now: Instant): (c: Cell)
    ensures c.shade == ShadeOf(day) && c.caption == FormatDate(day.date, day.dayOfWeek)
    ensures c.faded <==> DatePassed(day.date, now)
    ensures c.holidayName.Some? <==> day.holiday.Some?
    ensures day.holiday.Some? ==> c.holidayName == Some(day.holiday.value.name)
  {
    Cell(ShadeOf(day), DatePassed(day.date, now), FormatDate(day.date, day.dayOfWeek),
         if day.holiday.Some? then Some(day.holiday.value.name) else None)
  }

  /** `days.map(...)`. */
  function CellsOf(days: seq<CalendarDay>, now: Instant): (cells: seq<Cell>)
    ensures |cells| == |days|
    ensures forall i :: 0 <= i < |days| ==> cells[i] == CellOf(days[i], now)
  {
    if days == [] then [] else [CellOf(days[0], now)] + CellsOf(days[1..], now)
  }

  /** `Object.entries(fullCalendar).map(...)`: each heading with its cells. */
  function MonthsOf(data: CalendarData, now: Instant): (months: seq<(string, seq<Cell>)>)
    ensures |months| == |data|
    ensures forall i :: 0 <= i < |data| ==> months[i] == (data[i].0, CellsOf(data[i].1, now))
  {
    if data == [] then [] else [(data[0].0, CellsOf(data[0].1, now))] + MonthsOf(data[1..], now)
  }

  /** The component's state. */
  datatype CalendarState = CalendarState(calendar: CalendarData, isLoading: bool, error: Option<string>)

  const InitialCalendar: CalendarState := CalendarState([], true, None)

  const CalendarError: string := "Error fetching full calendar. Please try again later."

  /** The state once the request settles: a failed request and a body that
      is not JSON both set the fixed message and keep the empty calendar. */
  function SettledCalendar(r: CalendarResponse): (st: CalendarState)
    ensures !st.isLoading
    ensures st.error.Some? <==> !r.ok || r.body.None?
    ensures st.error.Some? ==> st.error == Some(CalendarError) && st.calendar == []
    ensures st.error.None? ==> st.calendar == r.body.value
  {
    if !r.ok || r.body.None? then CalendarState([], false, Some(CalendarError))
    else CalendarState(r.body.value, false, None)
  }

  datatype CalendarScreen = CalendarLoading | CalendarFailed(message: string) | Calendar(months: seq<(string, seq<Cell>)>)

  /** The component: loading first, then a non-empty error, then the months. */
  function RenderCalendar(st: CalendarState, now: Instant): (screen: CalendarScreen)
    ensures st.isLoading <==> screen == CalendarLoading
    ensures !st.isLoading && st.error.Some? && st.error.value != "" <==> screen.CalendarFailed?
    ensures screen.CalendarFailed? ==> screen.message == st.error.value
    ensures screen.Calendar? ==> screen.months == MonthsOf(st.calendar, now)
  {
    if st.isLoading then CalendarLoading
    else if st.error.Some? && st.error.value != "" then CalendarFailed(st.error.value)
    else Calendar(MonthsOf(st.calendar, now))
  }

  /** After the request settles the screen is the fixed error or the
      calendar's months in key order, and a cell names a holiday exactly
      when its day carries one. */
  lemma SettledCalendarScreen(r: CalendarResponse, now: Instant)
    ensures var screen := RenderCalendar(SettledCalendar(r), now);
      (!r.ok || r.body.None? ==> screen == CalendarFailed(CalendarError))
      && (r.ok && r.body.Some? ==>
            screen.Calendar? && |screen.months| == |r.body.value|
            && forall i, j :: 0 <= i < |r.body.value| && 0 <= j < |r.body.value[i].1| ==>
                 screen.months[i].0 == r.body.value[i].0
                 && (screen.months[i].1[j].holidayName.Some? <==> r.body.value[i].1[j].holiday.Some?))
  {
  }
}
