/** The monthly calendar's navigation: the previous and next month with year
    rollover, the three links of `getNavigationLinks`, and the labels the
    `Navigation` component prints beside them. */
module MonthNavigation {
  import opened Text
  import opened Names

  datatype MonthOfYear = MonthOfYear(month: int, year: int)

  /** Months counted from January of year 0, so that consecutive months of
      consecutive years are consecutive numbers. */
  function AbsoluteMonth(m: MonthOfYear): int
  {
    m.year * 12 + m.month - 1
  }

  /** The month before `month` of `year`; a month below 1 rolls back to
      December of the previous year. */
  function PrevMonth(month: int, year: int): (r: MonthOfYear)
    ensures 1 <= month <= 12 ==>
      1 <= r.month <= 12 && AbsoluteMonth(r) == AbsoluteMonth(MonthOfYear(month, year)) - 1
  {
    if month - 1 < 1 then MonthOfYear(12, year - 1) else MonthOfYear(month - 1, year)
  }

  /** The month after `month` of `year`; a month above 12 rolls over to
      January of the next year. */
  function NextMonth(month: int, year: int): (r: MonthOfYear)
    ensures 1 <= month <= 12 ==>
      1 <= r.month <= 12 && AbsoluteMonth(r) == AbsoluteMonth(MonthOfYear(month, year)) + 1
  {
    if month + 1 > 12 then MonthOfYear(1, year + 1) else MonthOfYear(month + 1, year)
  }

  /** January steps back into December of the year before, December steps
      forward into January of the year after, and every other month keeps its
      year in both directions. */
  lemma Rollover(month: int, year: int)
    requires 1 <= month <= 12
    ensures month == 1 ==> PrevMonth(month, year) == MonthOfYear(12, year - 1)
    ensures month == 12 ==> NextMonth(month, year) == MonthOfYear(1, year + 1)
    ensures month != 1 ==> PrevMonth(month, year).year == year
    ensures month != 12 ==> NextMonth(month, year).year == year
  {
  }

  /** Stepping back and forward again, or forward and back, returns to the
      month one started from. */
  lemma StepsAreInverse(month: int, year: int)
    requires 1 <= month <= 12
    ensures var p := PrevMonth(month, year); NextMonth(p.month, p.year) == MonthOfYear(month, year)
    ensures var n := NextMonth(month, year); PrevMonth(n.month, n.year) == MonthOfYear(month, year)
  {
  }

  datatype NavigationLinks = NavigationLinks(prev: string, current: string, next: string)

  function MonthHref(m: MonthOfYear): string
  {
    "/calendario/" + IntToString(m.year) + "/" + MonthName(m.month)
  }

  function YearHref(year: int): string
  {
    "/calendario/" + IntToString(year)
  }

  /** The links `getNavigationLinks` returns, stated through the month steps. */
  function NavigationLinksOf(currentMonth: int, year: int): NavigationLinks
  {
    NavigationLinks(MonthHref(PrevMonth(currentMonth, year)), YearHref(year),
      MonthHref(NextMonth(currentMonth, year)))
  }

  /** `getNavigationLinks`, with its four variables reassigned as the source
      does. */
  method GetNavigationLinks(currentMonth: int, year: int) returns (links: NavigationLinks)
    ensures links == NavigationLinksOf(currentMonth, year)
  {
    var prevMonth := currentMonth - 1;
    var prevYear := year;
    var nextMonth := currentMonth + 1;
    var nextYear := year;
    if prevMonth < 1 {
      prevMonth := 12;
      prevYear := year - 1;
    }
    if nextMonth > 12 {
      nextMonth := 1;
      nextYear := year + 1;
    }
    links := NavigationLinks(
      "/calendario/" + IntToString(prevYear) + "/" + MonthName(prevMonth),
      "/calendario/" + IntToString(year),
      "/calendario/" + IntToString(nextYear) + "/" + MonthName(nextMonth));
  }

  /** The current link names only the year, so two months of the same year
      share it, and the month links of a valid month name the neighbouring
      months in the dayjs spelling. */
  lemma LinkShapes(currentMonth: int, year: int, otherMonth: int)
    requires 1 <= currentMonth <= 12
    ensures NavigationLinksOf(currentMonth, year).current == NavigationLinksOf(otherMonth, year).current
    ensures var p := PrevMonth(currentMonth, year);
      NavigationLinksOf(currentMonth, year).prev
        == "/calendario/" + IntToString(p.year) + "/" + SpanishMonths[p.month - 1]
    ensures var n := NextMonth(currentMonth, year);
      NavigationLinksOf(currentMonth, year).next
        == "/calendario/" + IntToString(n.year) + "/" + SpanishMonths[n.month - 1]
  {
    var p, n := PrevMonth(currentMonth, year), NextMonth(currentMonth, year);
    assert NavigationLinksOf(currentMonth, year).prev == MonthHref(p);
    assert NavigationLinksOf(currentMonth, year).next == MonthHref(n);
    MonthNameInRange(p.month);
    MonthNameInRange(n.month);
  }

  lemma MonthNameInRange(m: int)
    requires 1 <= m <= 12
    ensures MonthName(m) == SpanishMonths[m - 1]
  {
    assert (m - 1) % 12 == m - 1;
  }

  /** The month the previous label names: `currentMonth - 1 || 12`. */
  function PrevLabelMonth(currentMonth: int): int
  {
    if currentMonth - 1 != 0 then currentMonth - 1 else 12
  }

  /** The month the next label names: `currentMonth + 1 > 12 ? 1 : currentMonth + 1`. */
  function NextLabelMonth(currentMonth: int): int
  {
    if currentMonth + 1 > 12 then 1 else currentMonth + 1
  }

  datatype NavigationView = NavigationView(
    prevHref: string, prevLabel: string,
    middleHref: string, middleLabel: string,
    nextHref: string, nextLabel: string)

  /** What `Navigation` renders: the three links with their labels. */
  function NavigationOf(currentMonth: int, year: int): NavigationView
  {
    var links := NavigationLinksOf(currentMonth, year);
    NavigationView(links.prev, MonthName(PrevLabelMonth(currentMonth)),
      links.current, IntToString(year),
      links.next, MonthName(NextLabelMonth(currentMonth)))
  }

  /** For a month in range the labels name the months the links lead to, and
      the middle link shows the year and leads to the year page. */
  lemma LabelsMatchLinks(currentMonth: int, year: int)
    requires 1 <= currentMonth <= 12
    ensures var v := NavigationOf(currentMonth, year);
      v.prevLabel == MonthName(PrevMonth(currentMonth, year).month)
      && v.nextLabel == MonthName(NextMonth(currentMonth, year).month)
      && v.middleHref == NavigationLinksOf(currentMonth, year).current
      && v.middleHref == "/calendario/" + v.middleLabel
  {
  }

  /** Below the range the two rules part: for month 0 the previous label names
      November while the previous link leads to December. */
  lemma LabelsPartAtZero(year: int)
    ensures NavigationOf(0, year).prevLabel == "noviembre"
    ensures MonthName(PrevMonth(0, year).month) == "diciembre"
  {
  }
}
