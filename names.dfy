/** The fixed Spanish name tables of the front end: the month names dayjs's
    `es` locale prints for 'MMMM', the long-weekend timeline's weekday names
    (indexed Monday = 0, as the backend's Python `weekday()` numbers days) and
    the full calendar's weekday letters (indexed Sunday = 0). */
module Names {
  import opened CivilDate

  const SpanishMonths: seq<string> :=
    ["enero", "febrero", "marzo", "abril", "mayo", "junio", "julio",
     "agosto", "septiembre", "octubre", "noviembre", "diciembre"]

  /** `getMonthName(m)`: dayjs's `month(m - 1)` rolls over into neighbouring
      years, so any integer names a month, counted modulo 12. */
  function MonthName(m: int): (name: string)
    ensures name in SpanishMonths
  {
    SpanishMonths[(m - 1) % 12]
  }

  /** Month names repeat every twelve months. */
  lemma MonthNamePeriodic(m: int)
    ensures MonthName(m + 12) == MonthName(m)
    ensures MonthName(m - 12) == MonthName(m)
  {
    assert (m + 12 - 1) % 12 == (m - 1) % 12;
    assert (m - 12 - 1) % 12 == (m - 1) % 12;
  }

  /** The twelve months of a year have twelve different names. */
  lemma MonthNamesDistinct(a: int, b: int)
    requires 1 <= a <= 12 && 1 <= b <= 12
    ensures MonthName(a) == MonthName(b) <==> a == b
  {
  }

  /** `getDayName(dayOfWeek)` of the long-weekend timeline: Monday = 0,
      and '' for any other index. */
  function DayNameMonday0(i: int): (name: string)
    ensures 0 <= i < 7 <==> name != ""
  {
    if 0 <= i < 7 then ["Lunes", "Martes", "Miércoles", "Jueves", "Viernes", "Sábado", "Domingo"][i]
    else ""
  }

  /** The weekday letter of the full calendar's `formatDate`: Sunday = 0; an
      index outside 0..6 reads `undefined`, which the template literal prints. */
  function WeekdayLetter(i: int): (letter: string)
    ensures 0 <= i < 7 <==> |letter| == 1
  {
    if 0 <= i < 7 then ["D", "L", "M", "X", "J", "V", "S"][i] else "undefined"
  }

  /** The letter a Spanish calendar uses for a weekday name. */
  function LetterOfDayName(name: string): string
  {
    if name == "Lunes" then "L"
    else if name == "Martes" then "M"
    else if name == "Miércoles" then "X"
    else if name == "Jueves" then "J"
    else if name == "Viernes" then "V"
    else if name == "Sábado" then "S"
    else if name == "Domingo" then "D"
    else ""
  }

  /** The two tables disagree: read with the same index, the timeline names the
      day after the one the calendar's letter stands for, so they never name
      the same weekday. */
  lemma WeekdayTablesDisagree(i: int)
    requires 0 <= i < 7
    ensures LetterOfDayName(DayNameMonday0(i)) == WeekdayLetter((i + 1) % 7)
    ensures LetterOfDayName(DayNameMonday0(i)) != WeekdayLetter(i)
  {
  }

  /** The backend's day-of-week number: Python's `weekday()`, Monday = 0. */
  function PythonWeekday(d: Date): (p: int)
    ensures 0 <= p < 7 && (p + 1) % 7 == Weekday(d)
  {
    (Weekday(d) + 6) % 7
  }

  /** Fed the backend's number, the timeline names the right day (the one the
      Sunday = 0 letter table gives for the date's own weekday), while the
      letter table read with that same number shows the previous day's letter. */
  lemma BackendWeekdayReadings(d: Date)
    ensures LetterOfDayName(DayNameMonday0(PythonWeekday(d))) == WeekdayLetter(Weekday(d))
    ensures WeekdayLetter(PythonWeekday(d)) != WeekdayLetter(Weekday(d))
  {
    WeekdayTablesDisagree(PythonWeekday(d));
  }
}
