/** The "year in numbers" widget: it fetches `/widgets/yearInNumbers` for a
    year (the current one by default) and lays the figures out, with the
    longest weekend's range and a singular or plural day unit. */
module YearStatistics {
  import opened Wrappers
  import opened Text
  import opened Clock

  datatype LongestWeekend = LongestWeekend(days: int, dates: string)

  datatype NextHolidayStat = NextHolidayStat(name: string, date: string, daysUntil: int, kind: string, irrenunciable: bool)

  datatype Statistics = Statistics(
    year: int, totalHolidays: int, holidaysOnWeekdays: int, holidaysOnWeekends: int, totalFreeDays: int,
    irrenunciableCount: int, religiousCount: int, nationalCount: int, regionalCount: int,
    longestWeekend: LongestWeekend, longWeekendsCount: int, nextHoliday: NextHolidayStat)

  /** `Unparsable` is a body that is not JSON; `Parsed(None)` is JSON `null`. */
  datatype StatsBody = Unparsable | Parsed(statistics: Option<Statistics>)

  datatype StatsResponse = StatsResponse(ok: bool, body: StatsBody)

  /** `propYear || dayjs().year()`: an absent or zero year means this year. */
  function ResolveYear(propYear: Option<int>, now: Instant): (year: int)
    ensures propYear.Some? && propYear.value != 0 ==> year == propYear.value
    ensures propYear.None? || propYear.value == 0 ==> year == now.date.year
  {
    if propYear.Some? && propYear.value != 0 then propYear.value else now.date.year
  }

  const Separator: string := " to "

  /** `formatLongestWeekend()`.  `format` stands for
      `dayjs(piece).format('D [de] MMM')`, given `None` for a missing piece
      (`dayjs(undefined)` reads the current time). */
  function FormatLongestWeekend(dates: string, format: Option<string> -> string): (text: string)
  {
    if dates == "" then ""
    else
      var parts := Split(dates, Separator);
      format(Some(parts[0])) + " - " + format(if |parts| > 1 then Some(parts[1]) else None)
  }

  /** The label is empty exactly when the dates are, and for two dates
      written without spaces around " to " it formats each of them. */
  lemma LongestWeekendLabel(dates: string, format: Option<string> -> string, a: string, b: string)
    ensures FormatLongestWeekend(dates, format) == "" <==> dates == ""
    ensures dates == a + Separator + b && (forall i :: 0 <= i < |a| ==> a[i] != ' ')
            && (forall i :: 0 <= i < |b| ==> b[i] != ' ') ==>
      FormatLongestWeekend(dates, format) == format(Some(a)) + " - " + format(Some(b))
  {
    if dates != "" {
      var parts := Split(dates, Separator);
      var t := format(Some(parts[0])) + " - " + format(if |parts| > 1 then Some(parts[1]) else None);
      assert t[|format(Some(parts[0]))| + 1] == '-';
    }
    if dates == a + Separator + b && (forall i :: 0 <= i < |a| ==> a[i] != ' ')
       && (forall i :: 0 <= i < |b| ==> b[i] != ' ') {
      SplitAroundSpacedSeparator(a, b, Separator);
    }
  }

  /** `daysUntil === 1 ? 'día' : 'días'`. */
  function DayUnit(daysUntil: int): string
  {
    if daysUntil == 1 then "día" else "días"
  }

  /** The unit is singular for exactly one day. */
  lemma DayUnitSingularIff(daysUntil: int)
    ensures DayUnit(daysUntil) == "día" <==> daysUntil == 1
    ensures DayUnit(daysUntil) != "día" ==> DayUnit(daysUntil) == "días"
  {
    assert |"día"| != |"días"|;
  }

  datatype StatsState = StatsState(statistics: Option<Statistics>, isLoading: bool, error: Option<string>)

  const InitialStats: StatsState := StatsState(None, true, None)

  const StatsError: string := "Error cargando estadísticas"

  const NoDataError: string := "Error cargando datos"

  /** The state once the request settles: a failed request or an unreadable
      body sets the message; otherwise whatever was parsed, `null` included,
      is stored. */
  function SettledStats(r: StatsResponse): (st: StatsState)
    ensures !st.isLoading
    ensures st.error.Some? <==> !r.ok || r.body.Unparsable?
    ensures st.error.Some? ==> st.error == Some(StatsError) && st.statistics.None?
    ensures st.error.None? ==> st.statistics == r.body.statistics
  {
    if !r.ok || r.body.Unparsable? then StatsState(None, false, Some(StatsError))
    else StatsState(r.body.statistics, false, None)
  }

  /** The figures the widget shows.  `nextDate` is the next holiday's date
      line. */
  datatype Figures = Figures(
    heading: string, totalHolidays: int, holidaysOnWeekends: int, longestLabel: string, longestDays: int,
    holidaysOnWeekdays: int, totalFreeDays: int, nextName: string, nextDate: string, daysUntil: int, dayUnit: string,
    irrenunciableCount: int, religiousCount: int, nationalCount: int, longWeekendsCount: int)

  datatype StatsScreen = StatsLoading | StatsFailed(message: string) | Dashboard(figures: Figures)

  /** The dashboard's figures for `s`.  `format` is the longest-weekend
      date format, and `dateLine` stands for
      `dayjs(date).format('D [de] MMMM [de] YYYY')` of the next holiday. */
  function FiguresOf(year: int, s: Statistics, format: Option<string> -> string, dateLine: string -> string): (f: Figures)
    ensures f.heading == "Tu Año " + IntToString(year) + " en Números"
    ensures f.longestLabel == FormatLongestWeekend(s.longestWeekend.dates, format)
    ensures f.dayUnit == DayUnit(s.nextHoliday.daysUntil) && f.daysUntil == s.nextHoliday.daysUntil
    ensures f.nextName == s.nextHoliday.name && f.nextDate == dateLine(s.nextHoliday.date)
  {
    Figures("Tu Año " + IntToString(year) + " en Números", s.totalHolidays, s.holidaysOnWeekends,
            FormatLongestWeekend(s.longestWeekend.dates, format), s.longestWeekend.days, s.holidaysOnWeekdays,
            s.totalFreeDays, s.nextHoliday.name, dateLine(s.nextHoliday.date), s.nextHoliday.daysUntil, DayUnit(s.nextHoliday.daysUntil),
            s.irrenunciableCount, s.religiousCount, s.nationalCount, s.longWeekendsCount)
  }

  /** The widget: loading wins over everything; then an error, or no
      statistics, shows the error text or the fallback message. */
  function RenderStats(st: StatsState, year: int, format: Option<string> -> string, dateLine: string -> string): (screen: StatsScreen)
    ensures st.isLoading <==> screen == StatsLoading
    ensures !st.isLoading && ((st.error.Some? && st.error.value != "") || st.statistics.None?) <==> screen.StatsFailed?
    ensures screen.StatsFailed? ==>
      screen.message == (if st.error.Some? && st.error.value != "" then st.error.value else NoDataError)
    ensures screen.Dashboard? ==> screen.figures == FiguresOf(year, st.statistics.value, format, dateLine)
  {
    if st.isLoading then StatsLoading
    else if (st.error.Some? && st.error.value != "") || st.statistics.None? then
      StatsFailed(if st.error.Some? && st.error.value != "" then st.error.value else NoDataError)
    else Dashboard(FiguresOf(year, st.statistics.value, format, dateLine))
  }

  /** After the request settles: a failure shows its message, a `null` body
      the fallback message, and statistics the dashboard for the year. */
  lemma SettledStatsScreen(r: StatsResponse, year: int, format: Option<string> -> string, dateLine: string -> string)
    ensures var screen := RenderStats(SettledStats(r), year, format, dateLine);
      (!r.ok || r.body.Unparsable? ==> screen == StatsFailed(StatsError))
      && (r.ok && r.body == Parsed(None) ==> screen == StatsFailed(NoDataError))
      && (r.ok && r.body.Parsed? && r.body.statistics.Some? ==>
            screen == Dashboard(FiguresOf(year, r.body.statistics.value, format, dateLine)))
  {
  }
}
