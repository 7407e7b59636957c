/** `useFilteredHolidays` and the two checkboxes of `HolidayFilters`: the
    holidays the list shows under the weekend and next-year flags, and the
    holidays it singles out as current, next and next visible. */
module FilteredHolidays {
  import opened Wrappers
  import opened Seqs
  import opened CivilDate
  import opened Clock
  import opened Holidays

  datatype Filters = Filters(showWeekends: bool, showNextYear: bool)

  /** The filters the holiday list starts with. */
  const InitialFilters: Filters := Filters(false, true)

  /** `handleWeekendsChange`: a copy of the filters with one flag flipped. */
  function HandleWeekendsChange(f: Filters): (r: Filters)
    ensures r.showWeekends == !f.showWeekends && r.showNextYear == f.showNextYear
  {
    f.(showWeekends := !f.showWeekends)
  }

  /** `handleNextYearChange`. */
  function HandleNextYearChange(f: Filters): (r: Filters)
    ensures r.showNextYear == !f.showNextYear && r.showWeekends == f.showWeekends
  {
    f.(showNextYear := !f.showNextYear)
  }

  /** Clicking a checkbox twice restores the filters, and the order of two
      clicks on different checkboxes does not matter. */
  lemma HandlersInvolutiveAndCommuting(f: Filters)
    ensures HandleWeekendsChange(HandleWeekendsChange(f)) == f
    ensures HandleNextYearChange(HandleNextYearChange(f)) == f
    ensures HandleWeekendsChange(HandleNextYearChange(f)) == HandleNextYearChange(HandleWeekendsChange(f))
  {
  }

  /** The filter callback: a weekend holiday is hidden unless weekends are
      shown, and a holiday of the year after `currentYear` is hidden unless
      next year is shown. */
  predicate Shown(h: Holiday, f: Filters, currentYear: int)
  {
    !(!f.showWeekends && IsWeekend(h.date)) && !(!f.showNextYear && h.date.year == currentYear + 1)
  }

  function ShownIn(f: Filters, currentYear: int): Holiday -> bool
  {
    h => Shown(h, f, currentYear)
  }

  /** `filterHolidays`, with `dayjs().year()` read from `now`. */
  function FilterHolidays(hs: seq<Holiday>, f: Filters, now: Instant): seq<Holiday>
  {
    Filter(hs, ShownIn(f, now.date.year))
  }

  /** The filtered list is the holidays that pass the flags, in their order. */
  lemma FilterHolidaysKeepsExactlyShown(hs: seq<Holiday>, f: Filters, now: Instant)
    ensures IsSubsequence(FilterHolidays(hs, f, now), hs)
    ensures forall h :: h in FilterHolidays(hs, f, now) <==> h in hs && Shown(h, f, now.date.year)
  {
    FilterIsSubsequence(hs, ShownIn(f, now.date.year));
    FilterMembers(hs, ShownIn(f, now.date.year));
    forall h | h in hs && Shown(h, f, now.date.year) ensures h in FilterHolidays(hs, f, now) {
      FilterKeeps(hs, ShownIn(f, now.date.year), h);
    }
  }

  /** What a cleared flag removes: no weekend holiday, or no holiday of next
      year, survives. */
  lemma FlagEffects(hs: seq<Holiday>, f: Filters, now: Instant)
    ensures !f.showWeekends ==> forall h :: h in FilterHolidays(hs, f, now) ==> !IsWeekend(h.date)
    ensures !f.showNextYear ==> forall h :: h in FilterHolidays(hs, f, now) ==> h.date.year != now.date.year + 1
  {
    FilterMembers(hs, ShownIn(f, now.date.year));
  }

  /** With both flags set nothing is filtered out. */
  lemma BothFlagsShowAll(hs: seq<Holiday>, now: Instant)
    ensures FilterHolidays(hs, Filters(true, true), now) == hs
  {
    FilterAll(hs, ShownIn(Filters(true, true), now.date.year));
  }

  /** `currentHoliday`: the last holiday, in list order, dated on or before
      today. */
  function CurrentHoliday(hs: seq<Holiday>, now: Instant): Option<Holiday>
  {
    Last(PastHolidays(hs, now))
  }

  /** `nextHoliday`: `futureHolidays[0] || null`. */
  function NextHoliday(hs: seq<Holiday>, now: Instant): Option<Holiday>
  {
    var future := FutureHolidays(hs, now);
    if future == [] then None else Some(future[0])
  }

  /** `isAfter(now, 'day') || isSame(now, 'day')`: not before today. */
  function NotPastIn(now: Instant): Holiday -> bool
  {
    (h: Holiday) => !IsPastDate(h.date, now)
  }

  /** `visibleNextHoliday`: the first filtered holiday dated today or later. */
  function VisibleNextHoliday(filtered: seq<Holiday>, now: Instant): Option<Holiday>
  {
    Find(filtered, NotPastIn(now))
  }

  /** The current holiday is the last one, in list order, dated on or before
      today; there is none exactly when no holiday is. */
  lemma CurrentHolidayIsLastStarted(hs: seq<Holiday>, now: Instant)
    ensures CurrentHoliday(hs, now).None? <==> forall j :: 0 <= j < |hs| ==> !OnOrBeforeToday(hs[j], now)
    ensures CurrentHoliday(hs, now).Some? ==>
      exists i :: 0 <= i < |hs| && hs[i] == CurrentHoliday(hs, now).value && OnOrBeforeToday(hs[i], now)
        && forall j :: i < j < |hs| ==> !OnOrBeforeToday(hs[j], now)
  {
    var past := PastHolidays(hs, now);
    if past != [] {
      var i := FilterLastIsLastMatch(hs, IsPastIn(now));
      assert hs[i] == CurrentHoliday(hs, now).value;
    } else {
      forall j | 0 <= j < |hs| ensures !OnOrBeforeToday(hs[j], now) {
        if OnOrBeforeToday(hs[j], now) {
          FilterKeeps(hs, IsPastIn(now), hs[j]);
        }
      }
    }
  }

  /** The next holiday is the first one, in list order, dated after today;
      there is none exactly when no holiday is. */
  lemma NextHolidayIsFirstUpcoming(hs: seq<Holiday>, now: Instant)
    ensures NextHoliday(hs, now) == Find(hs, IsFutureIn(now))
    ensures NextHoliday(hs, now).None? <==> forall j :: 0 <= j < |hs| ==> !AfterToday(hs[j], now)
    ensures NextHoliday(hs, now).Some? ==>
      exists i :: 0 <= i < |hs| && hs[i] == NextHoliday(hs, now).value && AfterToday(hs[i], now)
        && forall j :: 0 <= j < i ==> !AfterToday(hs[j], now)
  {
    FilterHeadIsFind(hs, IsFutureIn(now));
  }

  /** The next holiday is never today's, while the visible next holiday can
      be: a shown holiday dated today at the head of the list is the visible
      next one and not the next one. */
  lemma VisibleNextMayBeToday(hs: seq<Holiday>, f: Filters, now: Instant)
    requires hs != [] && IsToday(hs[0].date, now) && Shown(hs[0], f, now.date.year)
    ensures VisibleNextHoliday(FilterHolidays(hs, f, now), now) == Some(hs[0])
    ensures NextHoliday(hs, now) != Some(hs[0])
  {
    FilterCons(hs, ShownIn(f, now.date.year));
    NextNeverToday(hs, now);
  }

  lemma NextNeverToday(hs: seq<Holiday>, now: Instant)
    ensures NextHoliday(hs, now).Some? ==> !IsToday(NextHoliday(hs, now).value.date, now)
  {
    NextHolidayIsFirstUpcoming(hs, now);
    if NextHoliday(hs, now).Some? {
      ExactlyOneDayClass(NextHoliday(hs, now).value.date, now);
    }
  }

  /** With every holiday shown and none dated today, the visible next holiday
      is the next holiday. */
  lemma VisibleNextIsNextWhenNothingHidden(hs: seq<Holiday>, now: Instant)
    requires forall h :: h in hs ==> !IsToday(h.date, now)
    ensures VisibleNextHoliday(FilterHolidays(hs, Filters(true, true), now), now) == NextHoliday(hs, now)
  {
    BothFlagsShowAll(hs, now);
    forall h | h in hs ensures NotPastIn(now)(h) == IsFutureIn(now)(h) {
      ExactlyOneDayClass(h.date, now);
    }
    FindCongruent(hs, NotPastIn(now), IsFutureIn(now));
    NextHolidayIsFirstUpcoming(hs, now);
  }
}
