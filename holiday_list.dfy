/** The holiday list page: the guards it renders before any holiday, the
    cards view with a year separator wherever the year changes, and the list
    view that groups the holidays by month.  Each holiday is drawn with a
    flag telling whether it is the visible next holiday.  React state is
    passed in as values: the feed, the filters and the view mode, which starts
    as (and is reset to, whenever the width changes) the mode for the window
    width. */
module HolidayList {
  import opened Wrappers
  import opened Seqs
  import opened Sorting
  import opened CivilDate
  import opened Clock
  import opened Holidays
  import opened HolidayFeed
  import opened FilteredHolidays
  import opened Grouping
  import opened MonthGroups

  datatype ViewMode = ListView | CardsView

  /** `windowWidth <= 768 ? 'list' : 'cards'`. */
  function ViewModeFor(width: int): (m: ViewMode)
    ensures m == ListView <==> width <= 768
  {
    if width <= 768 then ListView else CardsView
  }

  /** A rendered element of the cards view. */
  datatype Item = YearSeparator(year: int) | Card(holiday: Holiday, isNextVisible: bool)

  /** `holiday.date === visibleNextHoliday?.date`. */
  predicate IsNextVisible(h: Holiday, visibleNext: Option<Holiday>)
  {
    visibleNext.Some? && h.date == visibleNext.value.date
  }

  /** One card per holiday, in order. */
  function Cards(hs: seq<Holiday>, visibleNext: Option<Holiday>): seq<Item>
  {
    seq(|hs|, i requires 0 <= i < |hs| => Card(hs[i], IsNextVisible(hs[i], visibleNext)))
  }

  /** What the cards view draws for the holiday at `i`: its card, preceded by
      a separator carrying its year when the holiday before it is of another
      year. */
  function Section(hs: seq<Holiday>, i: nat, visibleNext: Option<Holiday>): seq<Item>
    requires i < |hs|
  {
    (if i > 0 && hs[i].date.year != hs[i - 1].date.year then [YearSeparator(hs[i].date.year)] else [])
    + [Card(hs[i], IsNextVisible(hs[i], visibleNext))]
  }

  /** The cards view of the first `n` holidays. */
  function CardsUpTo(hs: seq<Holiday>, n: nat, visibleNext: Option<Holiday>): seq<Item>
    requires n <= |hs|
  {
    if n == 0 then [] else CardsUpTo(hs, n - 1, visibleNext) + Section(hs, n - 1, visibleNext)
  }

  /** `renderHolidaysWithYearSeparator`: the loop that remembers the previous
      holiday's year. */
  method RenderWithYearSeparators(hs: seq<Holiday>, visibleNext: Option<Holiday>) returns (items: seq<Item>)
    ensures items == CardsUpTo(hs, |hs|, visibleNext)
  {
    var previousYear: Option<int> := None;
    items := [];
    for i := 0 to |hs|
      invariant items == CardsUpTo(hs, i, visibleNext)
      invariant previousYear == if i == 0 then None else Some(hs[i - 1].date.year)
    {
      var holidayYear := hs[i].date.year;
      if previousYear.Some? && holidayYear != previousYear.value {
        items := items + [YearSeparator(holidayYear)];
      }
      items := items + [Card(hs[i], IsNextVisible(hs[i], visibleNext))];
      previousYear := Some(holidayYear);
    }
  }

  function IsCardItem(it: Item): bool
  {
    it.Card?
  }

  function IsSeparatorItem(it: Item): bool
  {
    it.YearSeparator?
  }

  /** Adjacent holidays of different years among the first `n`. */
  function YearChanges(hs: seq<Holiday>, n: nat): nat
    requires n <= |hs|
  {
    if n <= 1 then 0
    else YearChanges(hs, n - 1) + (if hs[n - 1].date.year != hs[n - 2].date.year then 1 else 0)
  }

  lemma CardsSnoc(hs: seq<Holiday>, h: Holiday, visibleNext: Option<Holiday>)
    ensures Cards(hs + [h], visibleNext) == Cards(hs, visibleNext) + [Card(h, IsNextVisible(h, visibleNext))]
  {
  }

  lemma CardsConcat(a: seq<Holiday>, b: seq<Holiday>, visibleNext: Option<Holiday>)
    ensures Cards(a + b, visibleNext) == Cards(a, visibleNext) + Cards(b, visibleNext)
  {
  }

  /** Without its separators the cards view is one card per holiday, in
      order, and there are as many separators as year changes. */
  lemma {:induction false} CardsViewContents(hs: seq<Holiday>, n: nat, visibleNext: Option<Holiday>)
    requires n <= |hs|
    ensures Filter(CardsUpTo(hs, n, visibleNext), IsCardItem) == Cards(hs[..n], visibleNext)
    ensures |Filter(CardsUpTo(hs, n, visibleNext), IsSeparatorItem)| == YearChanges(hs, n)
    ensures |CardsUpTo(hs, n, visibleNext)| == n + YearChanges(hs, n)
  {
    if n > 0 {
      var prefix, sec := CardsUpTo(hs, n - 1, visibleNext), Section(hs, n - 1, visibleNext);
      var card := Card(hs[n - 1], IsNextVisible(hs[n - 1], visibleNext));
      var changes, before := YearChanges(hs, n), YearChanges(hs, n - 1);
      assert CardsUpTo(hs, n, visibleNext) == prefix + sec;
      CardsViewContents(hs, n - 1, visibleNext);
      SectionFilters(hs, n - 1, visibleNext);
      assert |sec| == 1 + changes - before;
      assert Filter(prefix + sec, IsCardItem) == Cards(hs[..n - 1], visibleNext) + [card] by {
        FilterConcat(prefix, sec, IsCardItem);
      }
      CardsOfLonger(hs, n, visibleNext);
      assert |Filter(prefix + sec, IsSeparatorItem)| == before + (changes - before) by {
        FilterConcat(prefix, sec, IsSeparatorItem);
      }
    }
  }

  lemma CardsOfLonger(hs: seq<Holiday>, n: nat, visibleNext: Option<Holiday>)
    requires 0 < n <= |hs|
    ensures Cards(hs[..n], visibleNext) == Cards(hs[..n - 1], visibleNext) + [Card(hs[n - 1], IsNextVisible(hs[n - 1], visibleNext))]
  {
    assert hs[..n] == hs[..n - 1] + [hs[n - 1]];
    CardsSnoc(hs[..n - 1], hs[n - 1], visibleNext);
  }

  /** A section holds its holiday's card and, on a change of year, one
      separator. */
  lemma SectionFilters(hs: seq<Holiday>, i: nat, visibleNext: Option<Holiday>)
    requires i < |hs|
    ensures Filter(Section(hs, i, visibleNext), IsCardItem) == [Card(hs[i], IsNextVisible(hs[i], visibleNext))]
    ensures |Filter(Section(hs, i, visibleNext), IsSeparatorItem)| == YearChanges(hs, i + 1) - YearChanges(hs, i)
    ensures |Section(hs, i, visibleNext)| == 1 + YearChanges(hs, i + 1) - YearChanges(hs, i)
  {
    var card := Card(hs[i], IsNextVisible(hs[i], visibleNext));
    if i > 0 && hs[i].date.year != hs[i - 1].date.year {
      var sep := YearSeparator(hs[i].date.year);
      assert Section(hs, i, visibleNext) == [sep] + [card];
      FilterConcat([sep], [card], IsCardItem);
      FilterConcat([sep], [card], IsSeparatorItem);
    } else {
      assert Section(hs, i, visibleNext) == [card];
    }
  }

  /** The cards view starts with the first holiday's card and ends with the
      last holiday's card. */
  lemma {:induction false} CardsViewEnds(hs: seq<Holiday>, n: nat, visibleNext: Option<Holiday>)
    requires 0 < n <= |hs|
    ensures CardsUpTo(hs, n, visibleNext)[0] == Card(hs[0], IsNextVisible(hs[0], visibleNext))
    ensures var items := CardsUpTo(hs, n, visibleNext);
      items[|items| - 1] == Card(hs[n - 1], IsNextVisible(hs[n - 1], visibleNext))
  {
    if n > 1 {
      CardsViewEnds(hs, n - 1, visibleNext);
    }
  }

  /** A separator never comes first; it stands between the card of a holiday
      of another year and the card of a holiday of its own year. */
  lemma {:induction false} SeparatorNeighbours(hs: seq<Holiday>, n: nat, visibleNext: Option<Holiday>, k: nat)
    requires n <= |hs|
    requires k < |CardsUpTo(hs, n, visibleNext)| && CardsUpTo(hs, n, visibleNext)[k].YearSeparator?
    ensures var items := CardsUpTo(hs, n, visibleNext);
      0 < k && k + 1 < |items|
      && items[k - 1].Card? && items[k - 1].holiday.date.year != items[k].year
      && items[k + 1].Card? && items[k + 1].holiday.date.year == items[k].year
  {
    var prefix, sec := CardsUpTo(hs, n - 1, visibleNext), Section(hs, n - 1, visibleNext);
    var items := prefix + sec;
    if k < |prefix| {
      SeparatorNeighbours(hs, n - 1, visibleNext, k);
    } else {
      assert k == |prefix|;
      CardsViewEnds(hs, n - 1, visibleNext);
    }
  }

  /** The holiday at `i` is not before today, and no holiday that is not
      before today has an earlier date. */
  ghost predicate EarliestUpcoming(hs: seq<Holiday>, now: Instant, i: nat)
    requires i < |hs|
  {
    !IsPastDate(hs[i].date, now)
    && forall j :: 0 <= j < |hs| && !IsPastDate(hs[j].date, now) ==> DateKey(hs[i]) <= DateKey(hs[j])
  }

  /** On a date-sorted list, the cards flagged as next visible are exactly
      those dated on the earliest date that is not before today. */
  lemma FlaggedAreEarliestUpcoming(hs: seq<Holiday>, now: Instant, i: nat)
    requires SortedBy(hs, DateKey) && i < |hs|
    ensures IsNextVisible(hs[i], VisibleNextHoliday(hs, now)) <==> EarliestUpcoming(hs, now, i)
  {
    if IsNextVisible(hs[i], VisibleNextHoliday(hs, now)) {
      FlaggedIsEarliest(hs, now, i);
    }
    if EarliestUpcoming(hs, now, i) {
      EarliestIsFlagged(hs, now, i);
    }
  }

  lemma FlaggedIsEarliest(hs: seq<Holiday>, now: Instant, i: nat)
    requires SortedBy(hs, DateKey) && i < |hs|
    requires IsNextVisible(hs[i], VisibleNextHoliday(hs, now))
    ensures EarliestUpcoming(hs, now, i)
  {
    var p := NotPastIn(now);
    var j0 := FirstIndex(hs, p).value;
    assert hs[i].date == hs[j0].date;
    forall j | 0 <= j < |hs| && !IsPastDate(hs[j].date, now) ensures DateKey(hs[i]) <= DateKey(hs[j]) {
      assert p(hs[j]);
    }
  }

  lemma EarliestIsFlagged(hs: seq<Holiday>, now: Instant, i: nat)
    requires SortedBy(hs, DateKey) && i < |hs|
    requires EarliestUpcoming(hs, now, i)
    ensures IsNextVisible(hs[i], VisibleNextHoliday(hs, now))
  {
    var p := NotPastIn(now);
    assert p(hs[i]);
    var j0 := FirstIndex(hs, p).value;
    assert j0 <= i && p(hs[j0]);
    BeforeIffDayNumber(hs[i].date, hs[j0].date);
  }

  /** A section of the list view: the heading and the holidays of a month. */
  datatype MonthSection = MonthSection(monthYear: string, items: seq<Item>)

  /** The list view of `hs`: one section per entry of the month grouping. */
  function MonthSections(hs: seq<Holiday>, visibleNext: Option<Holiday>): seq<MonthSection>
  {
    var groups := Groups(hs, LabelOf);
    seq(|groups|, i requires 0 <= i < |groups| => MonthSection(groups[i].0, Cards(groups[i].1, visibleNext)))
  }

  /** `renderHolidaysByMonth`: the grouping loop, then one section per entry
      in key order. */
  method RenderByMonth(hs: seq<Holiday>, visibleNext: Option<Holiday>) returns (sections: seq<MonthSection>)
    ensures sections == MonthSections(hs, visibleNext)
  {
    var keys, buckets := GroupBy(hs, LabelOf);
    sections := seq(|keys|, i requires 0 <= i < |keys| => MonthSection(keys[i], Cards(buckets[keys[i]], visibleNext)));
    assert forall i :: 0 <= i < |keys| ==> Entries(keys, buckets)[i] == (keys[i], buckets[keys[i]]);
  }

  function SectionItems(sections: seq<MonthSection>): seq<seq<Item>>
  {
    seq(|sections|, i requires 0 <= i < |sections| => sections[i].items)
  }

  lemma {:induction false} FlattenCards(bs: seq<seq<Holiday>>, visibleNext: Option<Holiday>)
    ensures Flatten(seq(|bs|, i requires 0 <= i < |bs| => Cards(bs[i], visibleNext))) == Cards(Flatten(bs), visibleNext)
  {
    var cs := seq(|bs|, i requires 0 <= i < |bs| => Cards(bs[i], visibleNext));
    if bs != [] {
      FlattenCards(bs[1..], visibleNext);
      assert cs[1..] == seq(|bs[1..]|, i requires 0 <= i < |bs[1..]| => Cards(bs[1..][i], visibleNext));
      CardsConcat(bs[0], Flatten(bs[1..]), visibleNext);
    }
  }

  /** On a date-sorted list of four-digit years both views draw the same
      cards in the same order: the list view's sections, read in order, hold
      one card per holiday, each under its own month's heading. */
  lemma SortedViewsAgree(hs: seq<Holiday>, visibleNext: Option<Holiday>)
    requires SortedBy(hs, DateKey) && FourDigitYears(hs)
    ensures Flatten(SectionItems(MonthSections(hs, visibleNext))) == Cards(hs, visibleNext)
    ensures Cards(hs, visibleNext) == Filter(CardsUpTo(hs, |hs|, visibleNext), IsCardItem)
  {
    var bs := Buckets(hs, LabelOf);
    assert SectionItems(MonthSections(hs, visibleNext)) == seq(|bs|, i requires 0 <= i < |bs| => Cards(bs[i], visibleNext));
    FlattenCards(bs, visibleNext);
    SortedMonthSections(hs);
    CardsViewContents(hs, |hs|, visibleNext);
    assert hs[..|hs|] == hs;
  }

  /** What the page draws. */
  datatype Screen =
    | LoadingScreen
    | ErrorScreen(message: string)
    | NoUpcomingScreen
    | CardsScreen(items: seq<Item>)
    | MonthsScreen(sections: seq<MonthSection>)

  /** `if (error)`: a non-empty message. */
  predicate ErrorShown(feed: FeedState)
  {
    feed.error.Some? && feed.error.value != ""
  }

  /** The page: loading first, then an error, then the lack of an upcoming
      holiday, and otherwise the filtered holidays in the chosen view. */
  method Render(feed: FeedState, filters: Filters, mode: ViewMode, now: Instant) returns (screen: Screen)
    ensures feed.loading ==> screen == LoadingScreen
    ensures !feed.loading && ErrorShown(feed) ==> screen == ErrorScreen(feed.error.value)
    ensures !feed.loading && !ErrorShown(feed) && NextHoliday(feed.holidays, now).None? ==> screen == NoUpcomingScreen
    ensures !feed.loading && !ErrorShown(feed) && NextHoliday(feed.holidays, now).Some? ==>
      var filtered := FilterHolidays(feed.holidays, filters, now);
      var v := VisibleNextHoliday(filtered, now);
      screen == if mode == CardsView then CardsScreen(CardsUpTo(filtered, |filtered|, v)) else MonthsScreen(MonthSections(filtered, v))
  {
    if feed.loading {
      return LoadingScreen;
    }
    if ErrorShown(feed) {
      return ErrorScreen(feed.error.value);
    }
    if NextHoliday(feed.holidays, now).None? {
      return NoUpcomingScreen;
    }
    var filtered := FilterHolidays(feed.holidays, filters, now);
    var v := VisibleNextHoliday(filtered, now);
    if mode == CardsView {
      var items := RenderWithYearSeparators(filtered, v);
      screen := CardsScreen(items);
    } else {
      var sections := RenderByMonth(filtered, v);
      screen := MonthsScreen(sections);
    }
  }

  /** After a load that gets through the page goes on to the sorted
      holidays.  After one that throws, the list is empty and the page shows
      the thrown message when it is not empty, which the status error never
      is. */
  lemma SettledPage(current: Response, next: Response, now: Instant)
    ensures var feed := SettledFeed(current, next, now);
      !Loads(current, next) ==>
        !feed.loading && feed.holidays == []
        && (ErrorShown(feed) <==> LoadHolidays(current, next, now).error != "")
    ensures var feed := SettledFeed(current, next, now);
      !current.ok ==> ErrorShown(feed)
    ensures var feed := SettledFeed(current, next, now);
      Loads(current, next) ==> !feed.loading && !ErrorShown(feed) && SortedBy(feed.holidays, DateKey)
  {
    if Loads(current, next) {
      LoadedHolidays(current, next, now);
    }
  }

  /** Once settled, the filtered list the views draw is sorted by date, so
      on four-digit years the two views agree card for card. */
  lemma SettledViewsAgree(current: Response, next: Response, filters: Filters, now: Instant)
    requires FourDigitYears(SettledFeed(current, next, now).holidays)
    ensures var filtered := FilterHolidays(SettledFeed(current, next, now).holidays, filters, now);
      var v := VisibleNextHoliday(filtered, now);
      Flatten(SectionItems(MonthSections(filtered, v))) == Filter(CardsUpTo(filtered, |filtered|, v), IsCardItem)
  {
    SettledPage(current, next, now);
    FilteredViewsAgree(SettledFeed(current, next, now).holidays, filters, now);
  }

  lemma FilteredViewsAgree(hs: seq<Holiday>, filters: Filters, now: Instant)
    requires SortedBy(hs, DateKey) && FourDigitYears(hs)
    ensures var filtered := FilterHolidays(hs, filters, now);
      var v := VisibleNextHoliday(filtered, now);
      Flatten(SectionItems(MonthSections(filtered, v))) == Filter(CardsUpTo(filtered, |filtered|, v), IsCardItem)
  {
    var filtered := FilterHolidays(hs, filters, now);
    FilterSorted(hs, DateKey, ShownIn(filters, now.date.year));
    FilterMembers(hs, ShownIn(filters, now.date.year));
    assert FourDigitYears(filtered) by {
      forall i | 0 <= i < |filtered| ensures filtered[i].date.year >= 1000 {
        assert filtered[i] in hs;
      }
    }
    SortedViewsAgree(filtered, VisibleNextHoliday(filtered, now));
  }
}
