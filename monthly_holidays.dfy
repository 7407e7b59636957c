/** The monthly list: `useMonthlyHolidays` keeps the fetched holidays of one
    year whose month lies in a range, sorts them by date and picks the first
    upcoming one that is not on a weekend; `MonthlyHolidayList` renders the
    guards, the month sections and, for a single month, the month
    navigation.  The response of `/holidays/next` is passed in as a value. */
module MonthlyHolidays {
  import opened Wrappers
  import opened Seqs
  import opened Sorting
  import opened CivilDate
  import opened Clock
  import opened Holidays
  import opened HolidayFeed
  import opened Grouping
  import opened MonthGroups
  import opened MonthNavigation

  /** The filter callback: the year is `year` and the 1-based month lies in
      `startMonth .. endMonth`. */
  function InRange(startMonth: int, endMonth: int, year: int): Holiday -> bool
  {
    (h: Holiday) => h.date.year == year && startMonth <= h.date.month <= endMonth
  }

  /** `filteredHolidays`: the holidays in range, sorted by date. */
  function KeptHolidays(hs: seq<Holiday>, startMonth: int, endMonth: int, year: int): seq<Holiday>
  {
    SortByDate(Filter(hs, InRange(startMonth, endMonth, year)))
  }

  /** `isAfter(now, 'day') && !isWeekend(date)`. */
  function UpcomingWorkday(now: Instant): Holiday -> bool
  {
    (h: Holiday) => AfterToday(h, now) && !IsWeekend(h.date)
  }

  /** `nextNonWeekend`. */
  function NextNonWeekend(kept: seq<Holiday>, now: Instant): Option<Holiday>
  {
    Find(kept, UpcomingWorkday(now))
  }

  /** The kept holidays are, with their multiplicities, exactly the fetched
      holidays in range, and they are sorted by date. */
  lemma KeptAreInRange(hs: seq<Holiday>, startMonth: int, endMonth: int, year: int)
    ensures var kept := KeptHolidays(hs, startMonth, endMonth, year);
      SortedBy(kept, DateKey)
      && multiset(kept) == multiset(Filter(hs, InRange(startMonth, endMonth, year)))
      && forall h :: h in kept <==> h in hs && h.date.year == year && startMonth <= h.date.month <= endMonth
  {
    SortedFilterMembers(hs, InRange(startMonth, endMonth, year));
  }

  /** An empty month range keeps nothing. */
  lemma EmptyRangeKeepsNothing(hs: seq<Holiday>, startMonth: int, endMonth: int, year: int)
    requires startMonth > endMonth
    ensures KeptHolidays(hs, startMonth, endMonth, year) == []
  {
    FilterNone(hs, InRange(startMonth, endMonth, year));
  }

  /** On the sorted kept list the chosen holiday is the earliest one dated
      after today and not on a weekend; there is none only when no kept
      holiday qualifies. */
  lemma NextNonWeekendIsEarliest(kept: seq<Holiday>, now: Instant)
    requires SortedBy(kept, DateKey)
    ensures NextNonWeekend(kept, now).None? <==> forall h :: h in kept ==> !UpcomingWorkday(now)(h)
    ensures NextNonWeekend(kept, now).Some? ==>
      var v := NextNonWeekend(kept, now).value;
      v in kept && UpcomingWorkday(now)(v)
      && forall h :: h in kept && UpcomingWorkday(now)(h) ==> DateKey(v) <= DateKey(h)
  {
    var p := UpcomingWorkday(now);
    if FirstIndex(kept, p).Some? {
      ChosenIsEarliest(kept, p, FirstIndex(kept, p).value);
    } else {
      forall h | h in kept ensures !p(h) {
        var j :| 0 <= j < |kept| && kept[j] == h;
      }
    }
  }

  lemma ChosenIsEarliest(kept: seq<Holiday>, p: Holiday -> bool, i: nat)
    requires SortedBy(kept, DateKey) && i < |kept|
    requires forall j :: 0 <= j < i ==> !p(kept[j])
    ensures forall h :: h in kept && p(h) ==> DateKey(kept[i]) <= DateKey(h)
  {
    forall h | h in kept && p(h) ensures DateKey(kept[i]) <= DateKey(h) {
      var j :| 0 <= j < |kept| && kept[j] == h;
      assert i <= j;
    }
  }

  /** The hook's state. */
  datatype MonthlyState = MonthlyState(holidays: seq<Holiday>, loading: bool, error: Option<string>,
                                       nextNonWeekend: Option<Holiday>)

  const InitialMonthly: MonthlyState := MonthlyState([], true, None, None)

  const LoadError: string := "Failed to load holiday data"

  /** The state once the request completes.  A failed request, a body that
      cannot be read, and a body without a `holidays` array (whose `filter`
      throws) all end in the fixed error message with nothing stored. */
  function SettledMonthly(r: Response, startMonth: int, endMonth: int, year: int, now: Instant): (st: MonthlyState)
    ensures !st.loading
    ensures st.error.Some? <==> !r.ok || !r.body.Fields? || r.body.holidays.None?
    ensures st.error.Some? ==> st.error == Some(LoadError) && st.holidays == [] && st.nextNonWeekend.None?
    ensures st.error.None? ==>
      st.holidays == KeptHolidays(r.body.holidays.value, startMonth, endMonth, year)
      && st.nextNonWeekend == NextNonWeekend(st.holidays, now)
  {
    if !r.ok || !r.body.Fields? || r.body.holidays.None? then MonthlyState([], false, Some(LoadError), None)
    else
      var kept := KeptHolidays(r.body.holidays.value, startMonth, endMonth, year);
      MonthlyState(kept, false, None, NextNonWeekend(kept, now))
  }

  /** What the monthly list draws.  `navigation` is present only for a
      single month. */
  datatype MonthlyScreen =
    | LoadingMonths
    | MonthsError(message: string)
    | NoHolidays(navigation: Option<NavigationView>)
    | MonthGroupsScreen(groups: seq<(string, seq<Holiday>)>, nextNonWeekend: Option<Holiday>,
                        navigation: Option<NavigationView>)

  /** `isSingleMonth && <Navigation .../>`. */
  function NavigationFor(startMonth: int, endMonth: int, year: int): (nav: Option<NavigationView>)
    ensures nav.Some? <==> startMonth == endMonth
    ensures nav.Some? ==> nav.value == NavigationOf(startMonth, year)
  {
    if startMonth == endMonth then Some(NavigationOf(startMonth, year)) else None
  }

  /** The component: loading, then an error, then the empty period, and
      otherwise the holidays grouped by month in key order. */
  method RenderMonthly(st: MonthlyState, startMonth: int, endMonth: int, year: int) returns (screen: MonthlyScreen)
    ensures st.loading ==> screen == LoadingMonths
    ensures !st.loading && st.error.Some? && st.error.value != "" ==> screen == MonthsError(st.error.value)
    ensures !st.loading && !(st.error.Some? && st.error.value != "") && st.holidays == [] ==>
      screen == NoHolidays(NavigationFor(startMonth, endMonth, year))
    ensures !st.loading && !(st.error.Some? && st.error.value != "") && st.holidays != [] ==>
      screen == MonthGroupsScreen(Groups(st.holidays, LabelOf), st.nextNonWeekend, NavigationFor(startMonth, endMonth, year))
  {
    if st.loading {
      return LoadingMonths;
    }
    if st.error.Some? && st.error.value != "" {
      return MonthsError(st.error.value);
    }
    if |st.holidays| == 0 {
      return NoHolidays(NavigationFor(startMonth, endMonth, year));
    }
    var keys, buckets := GroupBy(st.holidays, LabelOf);
    screen := MonthGroupsScreen(Entries(keys, buckets), st.nextNonWeekend, NavigationFor(startMonth, endMonth, year));
  }

  /** After a successful load of four-digit years, the month sections read in
      order give back the sorted kept list, and every section is a month of
      the range. */
  lemma SettledSections(r: Response, startMonth: int, endMonth: int, year: int, now: Instant)
    requires r.ok && r.body.Fields? && r.body.holidays.Some? && year >= 1000
    ensures var kept := SettledMonthly(r, startMonth, endMonth, year, now).holidays;
      Flatten(Buckets(kept, LabelOf)) == kept
      && forall h :: h in kept ==> startMonth <= h.date.month <= endMonth && h.date.year == year
  {
    var kept := KeptHolidays(r.body.holidays.value, startMonth, endMonth, year);
    KeptAreInRange(r.body.holidays.value, startMonth, endMonth, year);
    assert FourDigitYears(kept) by {
      forall i | 0 <= i < |kept| ensures kept[i].date.year >= 1000 {
        assert kept[i] in kept;
      }
    }
    SortedMonthSections(kept);
  }
}
